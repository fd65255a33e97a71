/**
 * command_generator (algo/helper.py): turns the ordered poses chosen by the
 * route optimiser into the robot's instruction stream. Each consecutive pair
 * of poses gives one move (a one-cell translate or a 90-degree turn) and, when
 * the second pose photographs an obstacle, a SNAP token; a stop token ends the
 * list, and the run-length pass of the Compression module folds it.
 */
module Helper {
  import opened Entity
  import opened Commands
  import opened Compression

  /** The exceptions command_generator raises. */
  datatype SynthesisError =
    | InvalidTurn(previous: int, current: int)   // heading change other than +-90 degrees
    | InvalidSnap(robot: int, obstacle: int)     // robot and obstacle not on one axis
    | UnknownObstacle(id: int)                   // KeyError on obstacles_dict

  datatype Result<T> = Ok(value: T) | Err(error: SynthesisError)

  // ---- The obstacles dictionary ----

  /** obstacles_dict: obstacles keyed by id; a later obstacle with an id replaces an earlier one. */
  function ObstacleDict(obstacles: seq<Obstacle>): (d: map<int, Obstacle>)
    ensures d.Keys == set o | o in obstacles :: o.obstacleId
    ensures forall id :: id in d ==> d[id] in obstacles && d[id].obstacleId == id
  {
    if obstacles == [] then map[]
    else
      var o := Last(obstacles);
      var init := obstacles[..|obstacles| - 1];
      assert obstacles == init + [o];
      ObstacleDict(init)[o.obstacleId := o]
  }

  /** The dictionary maps each id to the last obstacle in the list that carries it. */
  lemma {:induction false} ObstacleDictKeepsLast(obstacles: seq<Obstacle>, i: nat)
    requires i < |obstacles|
    requires forall j :: i < j < |obstacles| ==> obstacles[j].obstacleId != obstacles[i].obstacleId
    ensures obstacles[i].obstacleId in ObstacleDict(obstacles)
    ensures ObstacleDict(obstacles)[obstacles[i].obstacleId] == obstacles[i]
    decreases |obstacles|
  {
    var init := obstacles[..|obstacles| - 1];
    if i < |obstacles| - 1 {
      assert init[i] == obstacles[i];
      assert forall j :: i < j < |init| ==> init[j] == obstacles[j];
      ObstacleDictKeepsLast(init, i);
      assert Last(obstacles).obstacleId != obstacles[i].obstacleId;
    }
  }

  // ---- One pair of poses ----

  /** is_forward_x: the x step, times (3 - previous heading), is positive. */
  predicate ForwardX(prev: CellState, cur: CellState) {
    (cur.x - prev.x) * (3 - prev.direction) > 0
  }

  /** is_forward_y: the y step, times (3 - previous heading), is positive. */
  predicate ForwardY(prev: CellState, cur: CellState) {
    (cur.y - prev.y) * (3 - prev.direction) > 0
  }

  /** The move for two poses with one heading: FW010 when either axis steps forward, else BW010. */
  function TranslateCommand(prev: CellState, cur: CellState): Command {
    Translate(ForwardX(prev, cur) || ForwardY(prev, cur), 10)
  }

  /** is_forward of generate_turn_command: the forward test on the axis the previous heading drives. */
  predicate IsForwardTurn(prev: CellState, cur: CellState) {
    || (ForwardX(prev, cur) && (prev.direction == 2 || prev.direction == 6))
    || (ForwardY(prev, cur) && (prev.direction == 0 || prev.direction == 4))
  }

  /** generate_turn_command. */
  function TurnCommand(prev: CellState, cur: CellState): Result<Command> {
    if (cur.direction - prev.direction - 2) % 8 == 0 then
      Ok(Turn(if IsForwardTurn(prev, cur) then FR else BL))
    else if (cur.direction - prev.direction - 6) % 8 == 0 then
      Ok(Turn(if IsForwardTurn(prev, cur) then FL else BR))
    else
      Err(InvalidTurn(prev.direction, cur.direction))
  }

  /** generate_snap_command. */
  function SnapCommand(cur: CellState, ob: Obstacle): Result<Command> {
    var r, o := cur.direction, ob.direction;
    var ewFactor := (cur.y - ob.y) * (r - o);
    var nsFactor := (cur.x - ob.x) * (r - o);
    if (r + o) % 8 == 0 then
      Ok(Snap(cur.screenshotId, if ewFactor > 0 then Left else if ewFactor < 0 then Right else Centre))
    else if (r + o) % 8 == 4 then
      Ok(Snap(cur.screenshotId, if nsFactor < 0 then Left else if nsFactor > 0 then Right else Centre))
    else
      Err(InvalidSnap(r, o))
  }

  /** The tokens the pair (prev, cur) appends to commands: one move, then a SNAP for a photo pose. */
  function Step(prev: CellState, cur: CellState, dict: map<int, Obstacle>): (r: Result<seq<Command>>)
    ensures r.Ok? ==> |r.value| == if cur.screenshotId != -1 then 2 else 1
    ensures r.Ok? ==> (r.value[0].Translate? <==> cur.direction == prev.direction)
    ensures r.Ok? ==> (r.value[0].Turn? <==> cur.direction != prev.direction)
    ensures r.Ok? && cur.screenshotId != -1 ==> r.value[1].Snap? && r.value[1].id == cur.screenshotId
  {
    var move := if cur.direction == prev.direction then Ok(TranslateCommand(prev, cur)) else TurnCommand(prev, cur);
    if move.Err? then Err(move.error)
    else if cur.screenshotId == -1 then Ok([move.value])
    else if cur.screenshotId !in dict then Err(UnknownObstacle(cur.screenshotId))
    else
      var snap := SnapCommand(cur, dict[cur.screenshotId]);
      if snap.Err? then Err(snap.error) else Ok([move.value, snap.value])
  }

  /** The move of a pair is produced: a translate, or a turn that does not raise. */
  predicate MoveSucceeds(prev: CellState, cur: CellState) {
    cur.direction == prev.direction || TurnCommand(prev, cur).Ok?
  }

  /**
   * When a pair raises, and which error: an invalid turn is raised first;
   * then, for a photo pose, a capture id missing from the dictionary (the
   * KeyError) and then an invalid snap geometry. A pair raises nothing else.
   */
  lemma StepFails(prev: CellState, cur: CellState, dict: map<int, Obstacle>)
    ensures cur.direction != prev.direction && TurnCommand(prev, cur).Err? ==>
      Step(prev, cur, dict) == Err(TurnCommand(prev, cur).error)
    ensures MoveSucceeds(prev, cur) && cur.screenshotId != -1 && cur.screenshotId !in dict ==>
      Step(prev, cur, dict) == Err(UnknownObstacle(cur.screenshotId))
    ensures MoveSucceeds(prev, cur) && cur.screenshotId != -1 && cur.screenshotId in dict
      && SnapCommand(cur, dict[cur.screenshotId]).Err?
      ==> Step(prev, cur, dict) == Err(SnapCommand(cur, dict[cur.screenshotId]).error)
    ensures Step(prev, cur, dict).Ok? <==>
      && MoveSucceeds(prev, cur)
      && (cur.screenshotId != -1 ==> cur.screenshotId in dict && SnapCommand(cur, dict[cur.screenshotId]).Ok?)
  {
  }

  // ---- The whole list ----

  /** The i-th pair of the pose list, 1 <= i < |states|. */
  function PairStep(states: seq<CellState>, i: int, dict: map<int, Obstacle>): Result<seq<Command>>
    requires 1 <= i < |states|
  {
    Step(states[i - 1], states[i], dict)
  }

  /** The commands list before the stop token, or the first error a pair raises. */
  function Moves(states: seq<CellState>, dict: map<int, Obstacle>): Result<seq<Command>> {
    if |states| < 2 then Ok([])
    else
      match Moves(states[..|states| - 1], dict)
      case Err(e) => Err(e)
      case Ok(cmds) =>
        match Step(states[|states| - 2], Last(states), dict)
        case Err(e) => Err(e)
        case Ok(t) => Ok(cmds + t)
  }

  /** command_generator as a value: the moves, the stop token, then the compression pass. */
  function Synthesize(states: seq<CellState>, obstacles: seq<Obstacle>): Result<seq<Command>> {
    match Moves(states, ObstacleDict(obstacles))
    case Err(e) => Err(e)
    case Ok(m) => Ok(Compress(m + [Stop]))
  }

  lemma MovesStep(states: seq<CellState>, i: nat, dict: map<int, Obstacle>)
    requires 1 <= i < |states| && Moves(states[..i], dict).Ok?
    ensures Moves(states[..i + 1], dict) ==
      match PairStep(states, i, dict)
      case Err(e) => Err(e)
      case Ok(t) => Ok(Moves(states[..i], dict).value + t)
  {
    var s := states[..i + 1];
    assert s[..|s| - 1] == states[..i];
    assert s[|s| - 2] == states[i - 1] && Last(s) == states[i];
  }

  /** Once a prefix of the poses raises, the whole list raises the same error. */
  lemma {:induction false} MovesErrPersists(states: seq<CellState>, k: nat, dict: map<int, Obstacle>)
    requires 1 <= k <= |states| && Moves(states[..k], dict).Err?
    ensures Moves(states, dict) == Moves(states[..k], dict)
    decreases |states|
  {
    if k == |states| {
      assert states[..k] == states;
    } else {
      var init := states[..|states| - 1];
      assert init[..k] == states[..k];
      MovesErrPersists(init, k, dict);
    }
  }

  /** The loop of command_generator over the pose pairs, then its compression loop. */
  method CommandGenerator(states: seq<CellState>, obstacles: seq<Obstacle>) returns (r: Result<seq<string>>)
    ensures r.Ok? <==> Synthesize(states, obstacles).Ok?
    ensures r.Ok? ==> r.value == Wire(Synthesize(states, obstacles).value)
    ensures r.Err? ==> r.error == Synthesize(states, obstacles).error
  {
    var obstaclesDict := ObstacleDict(obstacles);
    var commands: seq<Command> := [];
    var i := 1;
    while i < |states|
      invariant 1 <= i && (|states| >= 1 ==> i <= |states|)
      invariant i <= |states| ==> Moves(states[..i], obstaclesDict) == Ok(commands)
      invariant |states| == 0 ==> commands == []
    {
      var pState, curState := states[i - 1], states[i];
      MovesStep(states, i, obstaclesDict);
      var isForwardX := (curState.x - pState.x) * (3 - pState.direction) > 0;
      var isForwardY := (curState.y - pState.y) * (3 - pState.direction) > 0;
      ghost var before := commands;
      var move: Command;
      if curState.direction == pState.direction {
        move := if isForwardX || isForwardY then Translate(true, 10) else Translate(false, 10);
        assert move == TranslateCommand(pState, curState);
      } else {
        var turn := TurnCommand(pState, curState);
        if turn.Err? {
          MovesErrPersists(states, i + 1, obstaclesDict);
          return Err(turn.error);
        }
        move := turn.value;
      }
      commands := commands + [move];
      if curState.screenshotId != -1 {
        if curState.screenshotId !in obstaclesDict {
          MovesErrPersists(states, i + 1, obstaclesDict);
          return Err(UnknownObstacle(curState.screenshotId));
        }
        var snap := SnapCommand(curState, obstaclesDict[curState.screenshotId]);
        if snap.Err? {
          MovesErrPersists(states, i + 1, obstaclesDict);
          return Err(snap.error);
        }
        commands := commands + [snap.value];
        assert commands[|before|..] == [move, snap.value];
      } else {
        assert commands[|before|..] == [move];
      }
      assert PairStep(states, i, obstaclesDict) == Ok(commands[|before|..]);
      assert commands == before + commands[|before|..];
      i := i + 1;
    }
    if |states| > 0 {
      assert states[..i] == states;
    }
    MovesShape(states, obstaclesDict);
    assert Unit(commands);
    ghost var moves := commands;
    commands := commands + [Stop];
    assert Sized(commands) by {
      assert forall j :: 0 <= j < |moves| ==> commands[j] == moves[j];
    }
    var compressed := CompressCommands(commands);
    return Ok(Wire(compressed));
  }

  // ---- Polarity of translates ----

  /** The forward sign of each heading: north and east count upwards, south and west downwards. */
  function ForwardSign(d: int): int
    requires IsCardinal(d)
  {
    if d == NORTH then 1
    else if d == EAST then 1
    else if d == SOUTH then -1
    else -1
  }

  /**
   * A translate is FW exactly when some axis step has the heading's forward
   * sign; a one-cell step along the heading is FW, one against it is BW, and
   * standing still is BW.
   */
  lemma TranslatePolarity(prev: CellState, cur: CellState)
    requires IsCardinal(prev.direction)
    ensures TranslateCommand(prev, cur).forward <==>
      (cur.x - prev.x) * ForwardSign(prev.direction) > 0 || (cur.y - prev.y) * ForwardSign(prev.direction) > 0
    ensures cur.x == prev.x + DX(prev.direction) && cur.y == prev.y + DY(prev.direction) ==>
      TranslateCommand(prev, cur) == Translate(true, 10)
    ensures cur.x == prev.x - DX(prev.direction) && cur.y == prev.y - DY(prev.direction) ==>
      TranslateCommand(prev, cur) == Translate(false, 10)
    ensures cur.x == prev.x && cur.y == prev.y ==> TranslateCommand(prev, cur) == Translate(false, 10)
  {
  }

  // ---- Turns ----

  /** The heading change a turn makes: clockwise (+2 mod 8) for FR and BL, counter-clockwise for FL and BR. */
  function Rotation(k: TurnKind): int {
    match k
    case FR => 2
    case BL => 2
    case FL => 6
    case BR => 6
  }

  /** Whether a turn drives forward along its arc. */
  predicate DrivesForward(k: TurnKind) {
    k == FR || k == FL
  }

  /** How far cur lies ahead of prev along prev's heading. */
  function Ahead(prev: CellState, cur: CellState): int {
    (cur.x - prev.x) * DX(prev.direction) + (cur.y - prev.y) * DY(prev.direction)
  }

  /** The clockwise and counter-clockwise tests of generate_turn_command, read as residues. */
  lemma TurnResidues(delta: int)
    ensures (delta - 2) % 8 == 0 <==> delta % 8 == 2
    ensures (delta - 6) % 8 == 0 <==> delta % 8 == 6
  {
    var q := delta / 8;
    assert delta == 8 * q + delta % 8;
    assert delta - 2 == 8 * q + (delta % 8 - 2);
    assert delta - 6 == 8 * q + (delta % 8 - 6);
  }

  /** From a cardinal heading, is_forward holds exactly when the new pose lies ahead. */
  lemma ForwardTurnAhead(prev: CellState, cur: CellState)
    requires IsCardinal(prev.direction)
    ensures IsForwardTurn(prev, cur) <==> Ahead(prev, cur) > 0
  {
    var dx, dy := cur.x - prev.x, cur.y - prev.y;
    if prev.direction == NORTH {
      assert Ahead(prev, cur) == dy && (ForwardY(prev, cur) <==> dy * 3 > 0);
    } else if prev.direction == EAST {
      assert Ahead(prev, cur) == dx && (ForwardX(prev, cur) <==> dx * 1 > 0);
    } else if prev.direction == SOUTH {
      assert Ahead(prev, cur) == -dy && (ForwardY(prev, cur) <==> dy * -1 > 0);
    } else {
      assert Ahead(prev, cur) == -dx && (ForwardX(prev, cur) <==> dx * -3 > 0);
    }
  }

  /**
   * generate_turn_command succeeds exactly on a 90-degree heading change,
   * and the turn it picks rotates by that change.
   */
  lemma TurnSemantics(prev: CellState, cur: CellState)
    ensures TurnCommand(prev, cur).Ok? <==>
      (cur.direction - prev.direction) % 8 == 2 || (cur.direction - prev.direction) % 8 == 6
    ensures TurnCommand(prev, cur).Err? ==>
      TurnCommand(prev, cur).error == InvalidTurn(prev.direction, cur.direction)
    ensures TurnCommand(prev, cur).Ok? ==>
      var c := TurnCommand(prev, cur).value;
      c.Turn? && (prev.direction + Rotation(c.kind) - cur.direction) % 8 == 0
  {
    TurnResidues(cur.direction - prev.direction);
  }

  /** From a cardinal heading, the turn drives forward (FR, FL) exactly when the new pose lies ahead. */
  lemma TurnDrivesForward(prev: CellState, cur: CellState)
    requires IsCardinal(prev.direction) && TurnCommand(prev, cur).Ok?
    ensures TurnCommand(prev, cur).value.Turn?
    ensures DrivesForward(TurnCommand(prev, cur).value.kind) <==> Ahead(prev, cur) > 0
  {
    ForwardTurnAhead(prev, cur);
  }

  // ---- Photographs ----

  function Opposite(d: int): int {
    (d + 4) % 8
  }

  /** How far the obstacle lies to the robot's left (negative: to its right), for a cardinal heading. */
  function Lateral(cur: CellState, ob: Obstacle): int {
    (ob.y - cur.y) * DX(cur.direction) - (ob.x - cur.x) * DY(cur.direction)
  }

  function SideOf(v: int): Side {
    if v > 0 then Left else if v < 0 then Right else Centre
  }

  /**
   * generate_snap_command succeeds exactly when the two headings add up to
   * 0 or 4 modulo 8, and tags the pose's own capture id.
   */
  lemma SnapSemantics(cur: CellState, ob: Obstacle)
    ensures SnapCommand(cur, ob).Ok? <==>
      (cur.direction + ob.direction) % 8 == 0 || (cur.direction + ob.direction) % 8 == 4
    ensures SnapCommand(cur, ob).Err? ==>
      SnapCommand(cur, ob).error == InvalidSnap(cur.direction, ob.direction)
    ensures SnapCommand(cur, ob).Ok? ==>
      SnapCommand(cur, ob).value.Snap? && SnapCommand(cur, ob).value.id == cur.screenshotId
  {
  }

  /**
   * A robot facing the obstacle's marked side head-on gets the tag of the
   * side the obstacle lies on: _L when it is to the robot's left, _R to its
   * right, _C straight ahead.
   */
  lemma SnapTagIsSide(cur: CellState, ob: Obstacle)
    requires IsCardinal(cur.direction) && ob.direction == Opposite(cur.direction)
    ensures SnapCommand(cur, ob) == Ok(Snap(cur.screenshotId, SideOf(Lateral(cur, ob))))
  {
  }

  /** A robot with the same heading as the obstacle's face is not rejected: it gets _C. */
  lemma SnapSameHeading(cur: CellState, ob: Obstacle)
    requires IsCardinal(cur.direction) && ob.direction == cur.direction
    ensures SnapCommand(cur, ob) == Ok(Snap(cur.screenshotId, Centre))
  {
  }

  // ---- What the moves add up to ----

  /** Counts the photograph tokens. */
  function Photos(c: Command): int {
    if c.Snap? then 1 else 0
  }

  /** Number of poses after the first that photograph an obstacle. */
  function PhotoPoses(states: seq<CellState>): nat {
    if |states| < 2 then 0
    else PhotoPoses(states[..|states| - 1]) + if Last(states).screenshotId != -1 then 1 else 0
  }

  /** Number of consecutive pairs that keep their heading. */
  function SameHeadingPairs(states: seq<CellState>): nat {
    if |states| < 2 then 0
    else SameHeadingPairs(states[..|states| - 1]) + if Last(states).direction == states[|states| - 2].direction then 1 else 0
  }

  lemma StepTotals(prev: CellState, cur: CellState, dict: map<int, Obstacle>)
    requires Step(prev, cur, dict).Ok?
    ensures var t := Step(prev, cur, dict).value;
      && Unit(t) && Stop !in t
      && Total(t, PathSteps) == 1
      && Total(t, Photos) == (if cur.screenshotId != -1 then 1 else 0)
      && Total(t, Distance) == (if cur.direction == prev.direction then 10 else 0)
  {
    var t := Step(prev, cur, dict).value;
    assert [t[0]][..0] == [];
    if |t| == 2 {
      assert t == [t[0]] + [t[1]];
      TotalAppend([t[0]], [t[1]], PathSteps);
      TotalAppend([t[0]], [t[1]], Photos);
      TotalAppend([t[0]], [t[1]], Distance);
      assert [t[1]][..0] == [];
    } else {
      assert t == [t[0]];
    }
  }

  /**
   * A successful run of the pair loop emits one move per pair (one path
   * step each), one SNAP per photo pose, one-cell translates only (ten per
   * pair that keeps its heading), and no stop token.
   */
  lemma {:induction false} MovesShape(states: seq<CellState>, dict: map<int, Obstacle>)
    requires Moves(states, dict).Ok?
    ensures var m := Moves(states, dict).value;
      && Unit(m) && Stop !in m
      && Total(m, PathSteps) == (if |states| < 2 then 0 else |states| - 1)
      && Total(m, Photos) == PhotoPoses(states)
      && Total(m, Distance) == 10 * SameHeadingPairs(states)
    decreases |states|
  {
    if |states| >= 2 {
      var init := states[..|states| - 1];
      MovesShape(init, dict);
      var m0 := Moves(init, dict).value;
      var prev, cur := states[|states| - 2], Last(states);
      StepTotals(prev, cur, dict);
      var t := Step(prev, cur, dict).value;
      var m := m0 + t;
      assert Moves(states, dict).value == m;
      TotalAppend(m0, t, PathSteps);
      TotalAppend(m0, t, Photos);
      TotalAppend(m0, t, Distance);
      assert Unit(m) by {
        forall j | 0 <= j < |m| && m[j].Translate? ensures m[j].magnitude == 10 {
          if j < |m0| {
            assert m[j] == m0[j];
          } else {
            assert m[j] == t[j - |m0|];
          }
        }
      }
    }
  }

  /** A successful run of the pair loop means no pair raised, and the other way round. */
  lemma {:induction false} MovesSucceed(states: seq<CellState>, dict: map<int, Obstacle>)
    ensures Moves(states, dict).Ok? <==> forall i :: 1 <= i < |states| ==> PairStep(states, i, dict).Ok?
    decreases |states|
  {
    if |states| >= 2 {
      var init := states[..|states| - 1];
      MovesSucceed(init, dict);
      assert forall i :: 1 <= i < |init| ==> PairStep(init, i, dict) == PairStep(states, i, dict);
      assert PairStep(states, |states| - 1, dict) == Step(states[|states| - 2], Last(states), dict);
    }
  }

  /** An error is the one raised by the first pair that raises. */
  lemma {:induction false} MovesFirstError(states: seq<CellState>, dict: map<int, Obstacle>)
    requires Moves(states, dict).Err?
    ensures exists i :: 1 <= i < |states| && PairStep(states, i, dict) == Err(Moves(states, dict).error) &&
                        forall j :: 1 <= j < i ==> PairStep(states, j, dict).Ok?
    decreases |states|
  {
    var init := states[..|states| - 1];
    assert forall i :: 1 <= i < |init| ==> PairStep(init, i, dict) == PairStep(states, i, dict);
    if Moves(init, dict).Err? {
      MovesFirstError(init, dict);
    } else {
      MovesSucceed(init, dict);
      assert PairStep(states, |states| - 1, dict) == Step(states[|states| - 2], Last(states), dict);
    }
  }

  // ---- The output ----

  /** A non-translate token survives the pass only if it was in the input. */
  lemma {:induction false} OthersMembers(s: seq<Command>, c: Command)
    ensures c in Others(s) <==> c in s && !c.Translate?
    decreases |s|
  {
    if s != [] {
      var init := s[..|s| - 1];
      OthersMembers(init, c);
      assert s == init + [Last(s)];
    }
  }

  /**
   * The output ends with the stop token and holds no other; with fewer than
   * two poses it is the stop token alone. On the wire, "SSSSS" is the last
   * string and appears nowhere else.
   */
  lemma SynthesizeStops(states: seq<CellState>, obstacles: seq<Obstacle>)
    requires Synthesize(states, obstacles).Ok?
    ensures var cmds := Synthesize(states, obstacles).value;
      && cmds != [] && Last(cmds) == Stop
      && (forall i :: 0 <= i < |cmds| - 1 ==> cmds[i] != Stop)
      && (|states| < 2 ==> cmds == [Stop])
    ensures var w := Wire(Synthesize(states, obstacles).value);
      && w != [] && Last(w) == "SSSSS"
      && forall i :: 0 <= i < |w| - 1 ==> w[i] != "SSSSS"
  {
    var dict := ObstacleDict(obstacles);
    var m := Moves(states, dict).value;
    MovesShape(states, dict);
    var s := m + [Stop];
    assert s[..|s| - 1] == m;
    var acc := Compress(m);
    OthersMembers(m, Stop);
    CompressKeepsOthers(m);
    OthersMembers(acc, Stop);
    var cmds := Compress(s);
    assert cmds == acc + [Stop];
    forall i | 0 <= i < |cmds| - 1 ensures cmds[i] != Stop {
      assert cmds[i] == acc[i] && acc[i] in acc;
    }
    var w := Wire(cmds);
    StopSpelling(Stop);
    forall i | 0 <= i < |w| - 1 ensures w[i] != "SSSSS" {
      StopSpelling(cmds[i]);
    }
  }

  /**
   * The consumer's count: with runs under 100 cells, the translate cells plus
   * one per turn add up to one per pose pair, and the translate magnitudes
   * add up to ten per pair that keeps its heading.
   */
  lemma PathIndexConsistent(states: seq<CellState>, obstacles: seq<Obstacle>)
    requires Moves(states, ObstacleDict(obstacles)).Ok?
    requires ShortRuns(Moves(states, ObstacleDict(obstacles)).value + [Stop])
    ensures var cmds := Synthesize(states, obstacles).value;
      && Total(cmds, PathSteps) == (if |states| < 2 then 0 else |states| - 1)
      && Total(cmds, Distance) == 10 * SameHeadingPairs(states)
      && Total(cmds, Photos) == PhotoPoses(states)
  {
    var dict := ObstacleDict(obstacles);
    var m := Moves(states, dict).value;
    MovesShape(states, dict);
    StopKeepsTotals(m);
    CompressKeepsTotals(m + [Stop]);
    CompressKeepsPhotos(m + [Stop]);
  }

  /** Appending the stop token keeps every per-token total and one-cell translates. */
  lemma StopKeepsTotals(m: seq<Command>)
    requires Unit(m)
    ensures Unit(m + [Stop])
    ensures Total(m + [Stop], PathSteps) == Total(m, PathSteps)
    ensures Total(m + [Stop], Distance) == Total(m, Distance)
    ensures Total(m + [Stop], Photos) == Total(m, Photos)
  {
    var s := m + [Stop];
    assert forall j :: 0 <= j < |m| ==> s[j] == m[j];
    assert s[..|s| - 1] == m;
  }

  /** The pass keeps the number of photographs. */
  lemma CompressKeepsPhotos(s: seq<Command>)
    ensures Total(Compress(s), Photos) == Total(s, Photos)
  {
    CompressKeepsOthers(s);
    PhotosFollowOthers(Compress(s));
    PhotosFollowOthers(s);
  }

  /** The photo count only depends on the non-translate tokens. */
  lemma {:induction false} PhotosFollowOthers(s: seq<Command>)
    ensures Total(s, Photos) == Total(Others(s), Photos)
    decreases |s|
  {
    if s != [] {
      var init := s[..|s| - 1];
      PhotosFollowOthers(init);
      var tail := if Last(s).Translate? then [] else [Last(s)];
      TotalAppend(Others(init), tail, Photos);
      assert tail == [] ==> Total(tail, Photos) == 0;
      assert tail != [] ==> tail[..0] == [];
    }
  }

  // ---- Worked examples ----

  /** The spelling of one and two forward cells. */
  lemma ForwardSpelling()
    ensures Render(Translate(true, 10)) == "FW010"
    ensures Render(Translate(true, 20)) == "FW020"
  {
    assert Decimal(1) == "1" && Decimal(2) == "2";
    assert Decimal(10) == "10" && Decimal(20) == "20";
  }

  /** With two poses, the pair loop emits exactly the tokens of their one pair. */
  lemma TwoPoseMoves(states: seq<CellState>, d: map<int, Obstacle>)
    requires |states| == 2 && Step(states[0], states[1], d).Ok?
    ensures Moves(states, d) == Step(states[0], states[1], d)
  {
    assert states[..1] == [states[0]];
    assert Moves(states[..1], d) == Ok([]);
    MovesStep(states, 1, d);
    assert [] + Step(states[0], states[1], d).value == Step(states[0], states[1], d).value;
    assert states[..2] == states;
  }

  /** Two poses one cell apart, heading north: one forward cell, then the stop token. */
  lemma ScenarioStraight()
    ensures var r := Synthesize([CellState(1, 1, NORTH, -1, 0), CellState(1, 2, NORTH, -1, 0)], []);
      r.Ok? && Wire(r.value) == ["FW010", "SSSSS"]
  {
    var states := [CellState(1, 1, NORTH, -1, 0), CellState(1, 2, NORTH, -1, 0)];
    var d := ObstacleDict([]);
    assert Step(states[0], states[1], d) == Ok([Translate(true, 10)]);
    TwoPoseMoves(states, d);
    var c := [Translate(true, 10), Stop];
    assert [Translate(true, 10)] + [Stop] == c;
    CompressIdentity(c);
    ForwardSpelling();
    assert Wire(c) == [Render(c[0]), Render(c[1])];
  }

  lemma SidewaysMoves(states: seq<CellState>, d: map<int, Obstacle>)
    requires states == [CellState(1, 1, NORTH, -1, 0), CellState(2, 1, NORTH, -1, 0), CellState(3, 1, NORTH, -1, 0)]
    ensures Moves(states, d) == Ok([Translate(true, 10), Translate(true, 10)])
  {
    assert states[..1] == [states[0]];
    assert Moves(states[..1], d) == Ok([]);
    assert PairStep(states, 1, d) == Ok([Translate(true, 10)]);
    MovesStep(states, 1, d);
    assert [] + [Translate(true, 10)] == [Translate(true, 10)];
    assert Moves(states[..2], d) == Ok([Translate(true, 10)]);
    assert Step(states[1], states[2], d) == Ok([Translate(true, 10)]);
    MovesStep(states, 2, d);
    assert states[..3] == states;
    assert [Translate(true, 10)] + [Translate(true, 10)] == [Translate(true, 10), Translate(true, 10)];
  }

  lemma SidewaysTokens(c: seq<Command>)
    requires c == [Translate(true, 10), Translate(true, 10), Stop]
    ensures Wire(Compress(c)) == ["FW020", "SSSSS"]
  {
    assert Compress(c) == [Translate(true, 20), Stop] by {
      assert c[..2][..1] == [Translate(true, 10)] && c[..1] == [Translate(true, 10)] && c[..0] == [];
      assert Compress(c[..1]) == [Translate(true, 10)];
      assert Compress(c[..2]) == [Translate(true, 20)];
    }
    ForwardSpelling();
    assert Wire([Translate(true, 20), Stop]) == [Render(Translate(true, 20)), Render(Stop)];
  }

  /** Three poses heading north along one row: either axis may pass the forward test, so two forward cells merge. */
  lemma ScenarioSideways()
    ensures var r := Synthesize([CellState(1, 1, NORTH, -1, 0), CellState(2, 1, NORTH, -1, 0),
                                 CellState(3, 1, NORTH, -1, 0)], []);
      r.Ok? && Wire(r.value) == ["FW020", "SSSSS"]
  {
    var states := [CellState(1, 1, NORTH, -1, 0), CellState(2, 1, NORTH, -1, 0), CellState(3, 1, NORTH, -1, 0)];
    SidewaysMoves(states, ObstacleDict([]));
    var c := [Translate(true, 10), Translate(true, 10), Stop];
    assert [Translate(true, 10), Translate(true, 10)] + [Stop] == c;
    assert Synthesize(states, []) == Ok(Compress(c));
    SidewaysTokens(c);
  }

  /** A quarter turn from north to east with a forward step: FR000. */
  lemma ScenarioTurn()
    ensures var r := Synthesize([CellState(1, 1, NORTH, -1, 0), CellState(2, 2, EAST, -1, 0)], []);
      r.Ok? && Wire(r.value) == ["FR000", "SSSSS"]
  {
    var states := [CellState(1, 1, NORTH, -1, 0), CellState(2, 2, EAST, -1, 0)];
    var d := ObstacleDict([]);
    assert TurnCommand(states[0], states[1]) == Ok(Turn(FR));
    assert Step(states[0], states[1], d) == Ok([Turn(FR)]);
    TwoPoseMoves(states, d);
    var c := [Turn(FR), Stop];
    assert [Turn(FR)] + [Stop] == c;
    CompressIdentity(c);
    assert Wire(c) == [Render(c[0]), Render(c[1])];
  }

  lemma SnapMoves(states: seq<CellState>, obs: seq<Obstacle>)
    requires states == [CellState(6, 5, WEST, -1, 0), CellState(5, 5, WEST, 7, 0)]
    requires obs == [Obstacle(1, 4, EAST, 7)]
    ensures Moves(states, ObstacleDict(obs)) == Ok([Translate(true, 10), Snap(7, Left)])
  {
    var d := ObstacleDict(obs);
    assert obs[..0] == [];
    assert d == map[7 := obs[0]];
    assert states[..1] == [states[0]];
    assert SnapCommand(states[1], obs[0]) == Ok(Snap(7, Left));
    assert Moves(states[..1], d) == Ok([]);
    assert PairStep(states, 1, d) == Ok([Translate(true, 10), Snap(7, Left)]);
    MovesStep(states, 1, d);
    assert states[..2] == states;
    assert [] + [Translate(true, 10), Snap(7, Left)] == [Translate(true, 10), Snap(7, Left)];
  }

  lemma SnapTokens(c: seq<Command>)
    requires c == [Translate(true, 10), Snap(7, Left), Stop]
    ensures Wire(Compress(c)) == ["FW010", "SNAP7_L", "SSSSS"]
  {
    assert Compress(c) == c by {
      assert c[..2][..1] == [Translate(true, 10)] && c[..1] == [Translate(true, 10)] && c[..0] == [];
      assert Compress(c[..1]) == [Translate(true, 10)];
      assert Compress(c[..2]) == [Translate(true, 10), Snap(7, Left)];
    }
    assert Render(Snap(7, Left)) == "SNAP7_L" by {
      assert IntString(7) == "7";
    }
    ForwardSpelling();
    assert Wire(c) == [Render(c[0]), Render(c[1]), Render(c[2])];
  }

  /** A photo pose facing west at an obstacle facing east, south of the robot: SNAP7_L. */
  lemma ScenarioSnap()
    ensures var r := Synthesize([CellState(6, 5, WEST, -1, 0), CellState(5, 5, WEST, 7, 0)],
                                [Obstacle(1, 4, EAST, 7)]);
      r.Ok? && Wire(r.value) == ["FW010", "SNAP7_L", "SSSSS"]
  {
    var states := [CellState(6, 5, WEST, -1, 0), CellState(5, 5, WEST, 7, 0)];
    var obs := [Obstacle(1, 4, EAST, 7)];
    SnapMoves(states, obs);
    var c := [Translate(true, 10), Snap(7, Left), Stop];
    assert [Translate(true, 10), Snap(7, Left)] + [Stop] == c;
    assert Synthesize(states, obs) == Ok(Compress(c));
    SnapTokens(c);
  }
}
