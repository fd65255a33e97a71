# MDP-Algo arena and command synthesizer, in Dafny

This project models the two parts of the MDP-Algo robot planner that hold its logic:

- **The arena** (`entities/Entity.py`). It covers:
  - cells and the interior-cell check;
  - obstacles and their equality, which ignores the id;
  - the camera poses from which an obstacle's marked face can be photographed;
  - the `Grid` class, which keeps a duplicate-free obstacle list;
  - the clearance predicate `reachable`;
  - the per-obstacle table of reachable viewpoints.
- **The command synthesizer** (`command_generator` in `algo/helper.py`). It turns the ordered robot poses into the instruction stream:
  - one-cell translates (`FW010`/`BW010`);
  - quarter turns (`FR000`, `BL000`, `FL000`, `BR000`);
  - photograph tags (`SNAP<id>_L/_R/_C`);
  - the stop token `SSSSS`;
  - then one greedy run-length pass that folds adjacent translates of one polarity.

Modules:

- `entity.dfy`, module `Entity`:
  - headings NORTH=0, EAST=2, SOUTH=4, WEST=6, and SKIP=8 for an obstacle with no target face;
  - the `CellState` and `Obstacle` datatypes;
  - the viewpoint enumeration as a function (`ViewStates`) and as the source's four loops (`Obstacle.GetViewState`);
  - the clearance predicate `Safe`;
  - the class `Grid`, whose methods update its `obstacles` field in place.
- `commands.dfy`, module `Commands`:
  - the instruction tokens as a datatype;
  - their wire spelling (`Render`), built from Python's decimal `str`/`int`;
  - the textual merge test of the compression loop.
- `compression.dfy`, module `Compression`:
  - the run-length pass as a function (`Compress`) and as the source's loop (`CompressCommands`, `FoldToken`). The loop works on the wire spelling: the textual test and the read-back of the last three characters;
  - its properties: no mergeable neighbours survive, idempotence, turns and photographs pass through, runs are undone by `Expand`, and totals are kept.
- `helper.dfy`, module `Helper`:
  - the obstacle dictionary;
  - the per-pair move and SNAP generation, with the three exceptions as a `Result`;
  - the loop `CommandGenerator`, proved equal to the specification function `Synthesize`;
  - semantic lemmas about polarity, turns and SNAP tags;
  - the stop-token and path-count properties;
  - worked examples.

Python's `%` by 8 floors, which agrees with Dafny's Euclidean `%` for a positive divisor. `-y ** 2` is `-(y*y)`.

## Model

| member | source | states |
|---|---|---|
| Entity.InteriorExcludesBorder | entities/Entity.py:6-9 | a cell is valid exactly when 1 <= x <= W-2 and 1 <= y <= H-2; cells on the border ring are never valid |
| Entity.IsEqRefinesPosition | entities/Entity.py:30-40 | `is_eq` holds exactly when `cmp_position` holds and the headings agree, i.e. the poses agree on everything but id and penalty |
| Entity.SameAsIgnoresId | entities/Entity.py:64-77 | obstacle equality is equality of everything but the id, and it is symmetric |
| Entity.Obstacle.GetViewState | entities/Entity.py:79-120 | the four `for` loops build exactly `ViewStates`: the valid candidates at offsets 4, 5, 6 in order, and nothing for a non-cardinal heading |
| Entity.CandidateGeometry | entities/Entity.py:92-118 | the candidate at offset j lies j cells along the face's heading, faces the opposite heading, carries the obstacle id and has penalty -(j*j) |
| Entity.ViewsUpToMembers | entities/Entity.py:85-120 | the cells collected up to offset n are exactly the valid candidates at offsets 4..n-1, at most n-4 of them |
| Entity.ViewsUpToOrder | entities/Entity.py:85-120 | the cells collected up to offset n lie at depths 4..n-1 and strictly increase in depth |
| Entity.ViewStatesCharacterised | entities/Entity.py:85-120 | for a cardinal face: at most 3 cells, each valid and equal to the candidate at its depth 4..6, in increasing depth, and every valid candidate at 4..6 included; otherwise the empty list |
| Entity.OutsideIsUnreachable | entities/Entity.py:170-171 | a coordinate outside the interior is unreachable whatever the turn flags and obstacles |
| Entity.EmptyGridIsReachable | entities/Entity.py:170-197 | with no obstacles every interior coordinate is reachable for all flag values |
| Entity.HarmlessObstacleIrrelevant | entities/Entity.py:175-182 | an obstacle at Manhattan distance >= 4, or covered by the x=4, y<=4 exemption, never changes the verdict |
| Entity.CloseObstacleBlocks | entities/Entity.py:180-195 | a non-exempt obstacle at Manhattan distance < 4 and Chebyshev distance < 2 makes the cell unreachable for all flag values |
| Entity.TurningIsStricter | entities/Entity.py:185-195 | a cell reachable with either turn flag set is reachable with both flags off |
| Entity.WithObstacle | entities/Entity.py:138-152 | a duplicate (by position and face) leaves the list unchanged; otherwise the obstacle is appended and the rest is unchanged; duplicate-freedom is kept |
| Entity.Grid.constructor | entities/Entity.py:128-136 | a new grid has the given size and no obstacles, so its list is duplicate-free (`Valid`) |
| Entity.Grid.AddObstacle | entities/Entity.py:138-152 | the scan with the `to_add` flag leaves `obstacles` equal to `WithObstacle` of the old list, and a duplicate-free grid (`Valid`) stays duplicate-free |
| Entity.Grid.ResetObstacles | entities/Entity.py:154-155 | the obstacle list becomes empty, hence duplicate-free (`Valid`) |
| Entity.Grid.Reachable | entities/Entity.py:157-197 | the loop with its early returns computes `Safe`: inside the board and blocked by no obstacle (exemption, Manhattan test, turn, preTurn and Chebyshev < 2 branches) |
| Entity.Grid.ReachableViews | entities/Entity.py:213-217 | the comprehension keeps exactly the candidates reachable with default flags, in order (`SafeViews`) |
| Entity.SafeViews | entities/Entity.py:213-217 | the filtered list is no longer than the input and holds exactly the input cells that pass `reachable` with default flags |
| Entity.SafeViewsKeepOrder | entities/Entity.py:213-217 | filtering keeps the viewpoints in increasing distance from the face |
| Entity.Targets | entities/Entity.py:209-211 | the obstacles planned for are exactly those whose heading is not 8 |
| Entity.ViewTableSnoc | entities/Entity.py:213-218 | appending a target appends its reachable viewpoints to the table |
| Entity.Grid.GetViewObstaclePositions | entities/Entity.py:202-220 | one inner list per obstacle with heading other than 8, in obstacle order, each the order-preserving sub-list of its view states that pass `reachable` with default flags |
| Commands.Decimal | algo/helper.py:128 | `str` of a natural number is a non-empty string of digits, at least two from 10 and three from 100 |
| Commands.DecimalRoundTrip | algo/helper.py:126-128 | `int(str(n)) == n` |
| Commands.ParseAppend | algo/helper.py:126 | reading a concatenation of digit strings shifts the first part by the length of the second |
| Commands.ThreeDigitTail | algo/helper.py:126 | a digit string followed by three digits reads as the first part times 1000 plus the three digits, which read below 1000 |
| Commands.SplitThree | algo/helper.py:126 | a digit string of three or more characters reads as its leading part times 1000 plus its last three digits, which read below 1000 |
| Commands.LastThreeDigits | algo/helper.py:126 | reading the last three digits of a number reads it modulo 1000 |
| Commands.FieldLastThree | algo/helper.py:126-128 | the zero-padded magnitude field of a magnitude >= 10 has at least three characters, and its last three read back as the magnitude modulo 1000 |
| Commands.FieldWidth | algo/helper.py:128-129 | a magnitude of 10..999 is spelled with exactly three digits, so the token has five characters |
| Commands.MagnitudeReadBack | algo/helper.py:126 | `int(last[-3:])` on a rendered translate of magnitude >= 10 gives the magnitude modulo 1000 |
| Commands.MergeTestOnWire | algo/helper.py:124 | `cmd[1] == "W" and ccmd[:2] == cmd[:2]` holds exactly when both tokens are translates of the same polarity |
| Commands.StopSpelling | algo/helper.py:116 | "SSSSS" spells the stop token and nothing else |
| Compression.Compress | algo/helper.py:119-134 | the pass never lengthens the list, keeps a non-empty list non-empty and keeps translates at least one cell long |
| Compression.WireRead | algo/helper.py:122-126 | on rendered tokens the textual test is the merge condition, and when it holds the last three characters of the previous token read back as its magnitude modulo 1000 |
| Compression.FoldToken | algo/helper.py:122-134 | one loop iteration on the wire spelling (test, read back, add 10, re-spell, or append) equals one step `Push` of the pass |
| Compression.PrefixStep | algo/helper.py:121-134 | the pass over j+1 tokens is one more step on the pass over j tokens |
| Compression.CompressCommands | algo/helper.py:119-134 | the loop starting from `[commands[0]]` computes `Compress(commands)` |
| Compression.CompressLast | algo/helper.py:119-134 | the pass ends with the input's last token, or with a translate of its polarity |
| Compression.CompressNoAdjacent | algo/helper.py:119-134 | the output never has two adjacent translates of one polarity |
| Compression.CompressIdentity | algo/helper.py:119-134 | a list without mergeable neighbours passes through unchanged |
| Compression.CompressIdempotent | algo/helper.py:119-134 | running the pass again changes nothing |
| Compression.CompressKeepsOthers | algo/helper.py:131-134 | the turns, SNAPs and stop token come out unchanged and in order |
| Compression.PushUndone | algo/helper.py:124-129 | folding a one-cell token into a padded list adds exactly that token to the expansion, and the last translate grows by 10 or starts at 10 |
| Compression.MergesThrough | algo/helper.py:122-124 | the next token merges into the pass's last token exactly when it would merge with the input's last token |
| Compression.PushStep | algo/helper.py:121-134 | one step of the pass keeps the expansion equal to the input seen so far, keeps every translate between 1 and 99 cells, and sets the last magnitude to ten times the closing run |
| Compression.CompressRuns | algo/helper.py:119-134 | on one-cell tokens with runs under 100 cells, expanding each output translate into magnitude/10 one-cell translates gives back the input, every translate covers 1..99 whole cells, and the last translate carries 10 per token of the closing run |
| Compression.CompressedWidth | algo/helper.py:128-129 | with runs under 100 cells every output translate is spelled with five characters (three digits) |
| Compression.ExpandKeepsTotals | algo/helper.py:124-129 | expanding translates of whole cells keeps the total distance and the number of path steps |
| Compression.CompressKeepsTotals | algo/helper.py:119-134 | with runs under 100 cells the pass keeps the total translate distance and the number of path steps |
| Helper.ObstacleDict | algo/helper.py:20 | the dictionary's keys are exactly the obstacle ids, and each maps to an obstacle of the list carrying that id |
| Helper.ObstacleDictKeepsLast | algo/helper.py:20 | each id maps to the last obstacle in the list that carries it |
| Helper.Step | algo/helper.py:27-113 | a pair emits one move, a translate iff the headings are equal and a turn otherwise, plus one SNAP carrying the capture id iff it is a photo pose |
| Helper.StepFails | algo/helper.py:38-113 | a pair raises InvalidTurn when its heading change is not a quarter turn; otherwise, for a photo pose, UnknownObstacle when the capture id is not in the dictionary (the KeyError), then InvalidSnap when the snap geometry is invalid; it succeeds exactly when none of these holds |
| Helper.MovesStep | algo/helper.py:26-113 | one more pair appends that pair's tokens to the list, or raises its error |
| Helper.MovesErrPersists | algo/helper.py:38-113 | once a pair raises, `command_generator` raises that same error |
| Helper.MovesSucceed | algo/helper.py:26-113 | the pair loop succeeds exactly when no pair raises |
| Helper.MovesFirstError | algo/helper.py:26-113 | a failure is the error of the first pair that raises |
| Helper.CommandGenerator | algo/helper.py:4-136 | the method returns an error exactly when `Synthesize` does, the same error, and otherwise the wire spelling of `Synthesize`'s tokens |
| Helper.TranslatePolarity | algo/helper.py:30-40 | with equal headings the move is FW iff some axis step has the previous heading's forward sign: one cell ahead gives FW010, one cell back BW010, no movement BW010 |
| Helper.TurnSemantics | algo/helper.py:34-66 | a turn is produced exactly for a heading change of 2 or 6 mod 8, else InvalidTurn, and it rotates by that change |
| Helper.TurnDrivesForward | algo/helper.py:44-62 | from a cardinal heading the turn drives forward (FR/FL) iff the new pose lies ahead along the previous heading, and backward (BL/BR) otherwise |
| Helper.SnapSemantics | algo/helper.py:71-106 | a SNAP is produced exactly when the headings add up to 0 or 4 mod 8, carrying the capture id; otherwise InvalidSnap |
| Helper.SnapTagIsSide | algo/helper.py:80-100 | a robot facing the obstacle's marked face head-on gets _L, _R or _C by the side the obstacle lies on |
| Helper.SnapSameHeading | algo/helper.py:80-100 | a robot with the same heading as the face is not rejected: the tag is _C (through the `% 8 == 0` branch for N/S, the `% 8 == 4` branch for E/W) |
| Helper.StepTotals | algo/helper.py:38-113 | one pair's tokens are one-cell translates, no stop token, one path step, one photo iff a photo pose, and 10 of distance iff the heading is kept |
| Helper.MovesShape | algo/helper.py:26-113 | the pre-stop list has one path step per pair, one SNAP per photo pose, 10 of distance per heading-keeping pair, only one-cell translates and no stop token |
| Helper.SynthesizeStops | algo/helper.py:116-134 | the output ends with SSSSS and holds it nowhere else; with fewer than two poses it is exactly ["SSSSS"] |
| Helper.StopKeepsTotals | algo/helper.py:116 | appending the stop token changes no per-token total |
| Helper.CompressKeepsPhotos | algo/helper.py:119-134 | the pass keeps the number of SNAP tokens |
| Helper.PathIndexConsistent | algo/helper.py:38-134 | translate cells plus turns add up to len(states)-1, translate magnitudes to 10 per heading-keeping pair, and SNAPs to the photo poses |
| Helper.ForwardSpelling | algo/helper.py:128-129 | one and two forward cells are spelled FW010 and FW020 |
| Helper.ScenarioStraight | algo/helper.py:26-136 | two northward poses one cell apart give ["FW010", "SSSSS"] |
| Helper.SidewaysMoves | algo/helper.py:26-40 | three north-facing poses along a row give two forward one-cell translates |
| Helper.SidewaysTokens | algo/helper.py:116-134 | two forward cells and the stop token compress to ["FW020", "SSSSS"] |
| Helper.ScenarioSideways | algo/helper.py:26-136 | three north-facing poses along a row give ["FW020", "SSSSS"] |
| Helper.ScenarioTurn | algo/helper.py:26-136 | a quarter turn from north to east with a forward step gives ["FR000", "SSSSS"] |
| Helper.SnapMoves | algo/helper.py:26-113 | a westward step onto a photo pose of an east-facing obstacle on the robot's left gives FW010 then SNAP7_L |
| Helper.SnapTokens | algo/helper.py:116-134 | that move, the SNAP and the stop token pass the compression unchanged |
| Helper.ScenarioSnap | algo/helper.py:26-136 | the same poses give ["FW010", "SNAP7_L", "SSSSS"] |

## Left out

- `model.py` (image inference, image decoding and file moves), `main.py` (the web routes and the route optimiser calls) and the HTTP client script are foreign libraries and I/O. They are not part of this model.
- `consts.py` is not part of this model. WIDTH, HEIGHT and EXPANDED_CELL are the fields of the `Consts` parameter. Headings are the integers 0, 2, 4 and 6, and 8 marks an obstacle with no target face.
- `CellState.__repr__` and `get_dict` are display and serialisation only.
- The `retrying` argument of `get_view_state` and `get_view_obstacle_positions` is ignored by the source and left out.
- The input obstacles of `command_generator` are dictionaries with keys x, y, d and id. Here they are `Obstacle` values. The exceptions it raises, including the `KeyError` for an unknown capture id, are `Err` results.
- In `command_generator` the `commands` list holds `Command` tokens rather than strings. Their spelling is `Render`. The compression loop (Compression.FoldToken) applies the source's textual test and three-character read-back to that spelling.
- The `reachable` docstring (at least 4 units in total, at least 3 on the larger axis) disagrees with the code. The model follows the code: Manhattan distance >= 4 exempts an obstacle. With either turn flag a Chebyshev distance below 2*EXPANDED_CELL+1 blocks. The `elif` means a Chebyshev distance below 2 blocks even with `turn` set and `preTurn` clear.
- Compression.CompressRuns: stated only for runs under 100 cells (ShortRuns). A run of 100 or more would spell a four-digit magnitude, and `int(last[-3:])` would misread it. The pass itself (`Compress`) is modelled for all inputs, read-back modulo 1000 included.
- Compression.CompressKeepsTotals: requires runs under 100 cells, for the same reason.
- Helper.PathIndexConsistent: requires runs under 100 cells, for the same reason.
- SNAP tags: the source's comment says the robot and obstacle should face each other, but equal headings are not rejected. They pass the `% 8 == 0` test for N/S and the `% 8 == 4` test for E/W, and in both branches the factor is 0. The model follows the code and tags them _C (Helper.SnapSameHeading).
- The forward test of a translate or turn uses the previous pose's heading, as the code does (Helper.TranslatePolarity).
- When two obstacles share an id, the dictionary keeps the last one, as the comprehension does (Helper.ObstacleDictKeepsLast).
