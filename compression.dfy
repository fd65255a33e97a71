/**
 * The run-length pass at the end of command_generator (algo/helper.py): one
 * greedy left-to-right scan that folds each translate into the token before
 * it when both are translates of the same polarity, adding one cell (10) to
 * the magnitude it reads back from that token.
 */
module Compression {
  import opened Commands

  function Last<T>(s: seq<T>): T
    requires s != []
  {
    s[|s| - 1]
  }

  /** Every translate covers at least one cell, as every token the synthesizer emits does. */
  predicate Sized(s: seq<Command>) {
    forall i :: 0 <= i < |s| && s[i].Translate? ==> s[i].magnitude >= 10
  }

  /**
   * One step of the pass: fold c into the last token, or append it. The
   * last token's magnitude is read back modulo 1000, which is what reading
   * its last three characters gives (Commands.MagnitudeReadBack).
   */
  function Push(acc: seq<Command>, c: Command): seq<Command> {
    if acc != [] && Merges(Last(acc), c) then
      acc[..|acc| - 1] + [Translate(c.forward, Last(acc).magnitude % 1000 + 10)]
    else
      acc + [c]
  }

  /** The compressed list: the pass applied to every token in order. */
  function Compress(s: seq<Command>): (r: seq<Command>)
    ensures |r| <= |s|
    ensures s != [] ==> r != []
    ensures Sized(s) ==> Sized(r)
  {
    if s == [] then [] else Push(Compress(s[..|s| - 1]), Last(s))
  }

  /** The prefix of the input seen after j + 1 tokens, in terms of the one seen after j. */
  lemma PrefixStep(commands: seq<Command>, j: nat)
    requires 0 < j < |commands| && Sized(commands)
    ensures Compress(commands[..j]) != [] && Sized(Compress(commands[..j]))
    ensures Compress(commands[..j + 1]) == Push(Compress(commands[..j]), commands[j])
  {
    assert commands[..j + 1][..j] == commands[..j];
    assert Sized(commands[..j]);
  }

  /**
   * What the loop reads from the wire: the textual test is the merge
   * condition, and when it holds the last three characters of the previous
   * token give its magnitude modulo 1000.
   */
  lemma WireRead(ccmd: Command, cmd: Command)
    requires ccmd.Translate? ==> ccmd.magnitude >= 10
    ensures MergeTest(Render(ccmd), Render(cmd)) <==> Merges(ccmd, cmd)
    ensures Merges(ccmd, cmd) ==> |Render(ccmd)| >= 3
    ensures Merges(ccmd, cmd) ==> IsDigits(Render(ccmd)[|Render(ccmd)| - 3..])
    ensures Merges(ccmd, cmd) ==> ParseDecimal(Render(ccmd)[|Render(ccmd)| - 3..]) == ccmd.magnitude % 1000
  {
    MergeTestOnWire(ccmd, cmd);
    if ccmd.Translate? {
      MagnitudeReadBack(ccmd.forward, ccmd.magnitude);
    }
  }

  /**
   * One iteration of the loop, on the wire spelling: the textual test
   * decides whether to fold, and the folded magnitude is the last three
   * characters of the previous token read back, plus 10.
   */
  method FoldToken(compressed: seq<Command>, cmd: Command) returns (r: seq<Command>)
    requires compressed != [] && Sized(compressed)
    ensures r == Push(compressed, cmd)
  {
    var ccmd := compressed[|compressed| - 1];
    assert ccmd == Last(compressed);
    WireRead(ccmd, cmd);
    var w, cw := Render(cmd), Render(ccmd);
    if MergeTest(cw, w) {
      var steps := ParseDecimal(cw[|cw| - 3..]);
      var value := steps + 10;
      assert value == ccmd.magnitude % 1000 + 10;
      r := compressed[..|compressed| - 1] + [Translate(cmd.forward, value)];
    } else {
      assert !Merges(ccmd, cmd);
      r := compressed + [cmd];
    }
  }

  /** The loop of command_generator that builds compressed_commands. */
  method CompressCommands(commands: seq<Command>) returns (compressed: seq<Command>)
    requires commands != [] && Sized(commands)
    ensures compressed == Compress(commands)
  {
    compressed := [commands[0]];
    assert commands[..1] == [commands[0]];
    for j := 1 to |commands|
      invariant compressed == Compress(commands[..j])
    {
      PrefixStep(commands, j);
      compressed := FoldToken(compressed, commands[j]);
    }
    assert commands[..|commands|] == commands;
  }

  // ---- Adjacent translates of one polarity never survive ----

  predicate NoAdjacentMerge(s: seq<Command>) {
    forall i :: 0 < i < |s| ==> !Merges(s[i - 1], s[i])
  }

  /** The pass ends with the input's last token, or with a translate of the same polarity. */
  lemma CompressLast(s: seq<Command>)
    requires s != []
    ensures Compress(s) != []
    ensures Last(s).Translate? ==> Last(Compress(s)).Translate? && Last(Compress(s)).forward == Last(s).forward
    ensures !Last(s).Translate? ==> Last(Compress(s)) == Last(s)
  {
  }

  lemma {:induction false} CompressNoAdjacent(s: seq<Command>)
    ensures NoAdjacentMerge(Compress(s))
  {
    if s != [] {
      var init, c := s[..|s| - 1], Last(s);
      CompressNoAdjacent(init);
      var acc := Compress(init);
      var r := Compress(s);
      if acc != [] && Merges(Last(acc), c) {
        var pre := acc[..|acc| - 1];
        forall i | 0 < i < |r| ensures !Merges(r[i - 1], r[i]) {
          if i < |r| - 1 {
            assert r[i - 1] == acc[i - 1] && r[i] == acc[i];
          } else {
            assert r[i - 1] == acc[i - 1] && !Merges(acc[i - 1], acc[i]);
          }
        }
      } else {
        forall i | 0 < i < |r| ensures !Merges(r[i - 1], r[i]) {
          if i < |r| - 1 {
            assert r[i - 1] == acc[i - 1] && r[i] == acc[i];
          }
        }
      }
    }
  }

  /** A list with no mergeable neighbours passes through unchanged. */
  lemma {:induction false} CompressIdentity(s: seq<Command>)
    requires NoAdjacentMerge(s)
    ensures Compress(s) == s
  {
    if s != [] {
      var init := s[..|s| - 1];
      assert NoAdjacentMerge(init) by {
        forall i | 0 < i < |init| ensures !Merges(init[i - 1], init[i]) {
          assert init[i - 1] == s[i - 1] && init[i] == s[i];
        }
      }
      CompressIdentity(init);
      if init != [] {
        assert !Merges(Last(init), Last(s)) by {
          assert Last(init) == s[|s| - 2];
        }
      }
      assert s == init + [Last(s)];
    }
  }

  /** Running the pass a second time changes nothing. */
  lemma CompressIdempotent(s: seq<Command>)
    ensures Compress(Compress(s)) == Compress(s)
  {
    CompressNoAdjacent(s);
    CompressIdentity(Compress(s));
  }

  // ---- Turns, photographs and the stop token pass through in order ----

  /** The tokens that are not translates, in order. */
  function Others(s: seq<Command>): seq<Command> {
    if s == [] then []
    else Others(s[..|s| - 1]) + if Last(s).Translate? then [] else [Last(s)]
  }

  lemma OthersSnoc(a: seq<Command>, c: Command)
    ensures Others(a + [c]) == Others(a) + if c.Translate? then [] else [c]
  {
    assert (a + [c])[..|a|] == a;
  }

  lemma {:induction false} CompressKeepsOthers(s: seq<Command>)
    ensures Others(Compress(s)) == Others(s)
  {
    if s != [] {
      var init, c := s[..|s| - 1], Last(s);
      CompressKeepsOthers(init);
      var acc := Compress(init);
      if acc != [] && Merges(Last(acc), c) {
        var pre := acc[..|acc| - 1];
        assert acc == pre + [Last(acc)];
        OthersSnoc(pre, Last(acc));
        OthersSnoc(pre, Translate(c.forward, Last(acc).magnitude % 1000 + 10));
      } else {
        OthersSnoc(acc, c);
      }
    }
  }

  // ---- Run lengths and magnitudes ----

  /** Every translate is a single cell, as before compression. */
  predicate Unit(s: seq<Command>) {
    forall i :: 0 <= i < |s| && s[i].Translate? ==> s[i].magnitude == 10
  }

  /**
   * Magnitude of the block of same-polarity translates that ends the list,
   * ten per token: what the pass should leave in its last translate.
   */
  function RunMagnitude(s: seq<Command>): nat {
    if s == [] || !Last(s).Translate? then 0
    else if |s| >= 2 && Merges(s[|s| - 2], Last(s)) then RunMagnitude(s[..|s| - 1]) + 10
    else 10
  }

  /** No block of same-polarity translates reaches 100 cells. */
  predicate ShortRuns(s: seq<Command>) {
    forall n :: 0 < n <= |s| ==> RunMagnitude(s[..n]) < 1000
  }

  /** The one-cell translates of one polarity that a magnitude m stands for: m / 10 of them. */
  function Cells(forward: bool, m: nat): seq<Command>
    decreases m
  {
    if m < 10 then [] else Cells(forward, m - 10) + [Translate(forward, 10)]
  }

  /** Undo the pass: each translate of magnitude m becomes m / 10 one-cell translates. */
  function Expand(s: seq<Command>): seq<Command> {
    if s == [] then []
    else Expand(s[..|s| - 1]) + if Last(s).Translate? then Cells(Last(s).forward, Last(s).magnitude) else [Last(s)]
  }

  lemma ExpandSnoc(a: seq<Command>, c: Command)
    ensures Expand(a + [c]) == Expand(a) + if c.Translate? then Cells(c.forward, c.magnitude) else [c]
  {
    assert (a + [c])[..|a|] == a;
  }

  /** Every translate covers between 1 and 99 cells, so its field has exactly three digits. */
  predicate Padded(s: seq<Command>) {
    forall i :: 0 <= i < |s| && s[i].Translate? ==> s[i].magnitude % 10 == 0 && 10 <= s[i].magnitude < 1000
  }

  /** Folding one more cell into a translate of whole cells adds one cell to its expansion. */
  lemma ExpandGrow(pre: seq<Command>, f: bool, m: nat)
    ensures Expand(pre + [Translate(f, m + 10)]) == Expand(pre + [Translate(f, m)]) + [Translate(f, 10)]
  {
    ExpandSnoc(pre, Translate(f, m));
    ExpandSnoc(pre, Translate(f, m + 10));
  }

  lemma ExpandGrowAt(acc: seq<Command>, pre: seq<Command>, f: bool, m: nat)
    requires acc == pre + [Translate(f, m)]
    ensures Expand(pre + [Translate(f, m + 10)]) == Expand(acc) + [Translate(f, 10)]
  {
    ExpandGrow(pre, f, m);
  }

  lemma PaddedSnoc(a: seq<Command>, x: Command)
    ensures Padded(a + [x]) <==> Padded(a) && (x.Translate? ==> x.magnitude % 10 == 0 && 10 <= x.magnitude < 1000)
  {
    var r := a + [x];
    if Padded(a) && (x.Translate? ==> x.magnitude % 10 == 0 && 10 <= x.magnitude < 1000) {
      forall i | 0 <= i < |r| && r[i].Translate?
        ensures r[i].magnitude % 10 == 0 && 10 <= r[i].magnitude < 1000
      {
        if i < |a| {
          assert r[i] == a[i];
        }
      }
    }
    if Padded(r) {
      assert r[|a|] == x;
      forall i | 0 <= i < |a| && a[i].Translate?
        ensures a[i].magnitude % 10 == 0 && 10 <= a[i].magnitude < 1000
      {
        assert r[i] == a[i];
      }
    }
  }

  /** A translate of whole cells below 99 cells, read back and grown by one cell. */
  lemma OneMoreCell(m: nat)
    requires m % 10 == 0 && m < 990
    ensures m % 1000 == m
    ensures (m + 10) % 10 == 0 && 10 <= m + 10 < 1000
  {
  }

  /** Folding a one-cell translate into a padded translate of magnitude m. */
  lemma GrowFacts(acc: seq<Command>, f: bool, m: nat)
    requires acc != [] && Padded(acc) && Last(acc) == Translate(f, m) && m < 990
    ensures Expand(acc[..|acc| - 1] + [Translate(f, m + 10)]) == Expand(acc) + [Translate(f, 10)]
    ensures Padded(acc[..|acc| - 1] + [Translate(f, m + 10)])
  {
    var pre := acc[..|acc| - 1];
    assert acc == pre + [Translate(f, m)];
    ExpandGrowAt(acc, pre, f, m);
    OneMoreCell(m);
    PaddedSnoc(pre, Translate(f, m));
    PaddedSnoc(pre, Translate(f, m + 10));
  }

  /**
   * One step of the pass on a padded list, fed a one-cell token: Expand
   * sees exactly that token appended, the result stays padded, and its
   * last translate has grown by one cell or starts at one.
   */
  lemma PushUndone(acc: seq<Command>, c: Command)
    requires Padded(acc) && (c.Translate? ==> c.magnitude == 10)
    requires acc != [] && Merges(Last(acc), c) ==> Last(acc).magnitude < 990
    ensures Expand(Push(acc, c)) == Expand(acc) + [c]
    ensures Padded(Push(acc, c))
    ensures c.Translate? && acc != [] && Merges(Last(acc), c) ==> Last(Push(acc, c)).magnitude == Last(acc).magnitude + 10
    ensures c.Translate? && !(acc != [] && Merges(Last(acc), c)) ==> Last(Push(acc, c)).magnitude == 10
  {
    if acc != [] && Merges(Last(acc), c) {
      var m := Last(acc).magnitude;
      assert Last(acc) == Translate(c.forward, m);
      assert c == Translate(c.forward, 10);
      assert acc[|acc| - 1] == Last(acc);
      OneMoreCell(m);
      assert Push(acc, c) == acc[..|acc| - 1] + [Translate(c.forward, m + 10)];
      GrowFacts(acc, c.forward, m);
    } else {
      ExpandSnoc(acc, c);
      assert c.Translate? ==> Cells(c.forward, c.magnitude) == [c];
      PaddedSnoc(acc, c);
    }
  }

  /** The pass merges the next token into its last one exactly when the input's last token would merge. */
  lemma MergesThrough(init: seq<Command>, c: Command)
    requires init != []
    ensures Merges(Last(Compress(init)), c) <==> Merges(Last(init), c)
  {
    CompressLast(init);
  }

  lemma ShortRunsInit(s: seq<Command>)
    requires s != [] && ShortRuns(s)
    ensures ShortRuns(s[..|s| - 1])
  {
    var init := s[..|s| - 1];
    forall n | 0 < n <= |init| ensures RunMagnitude(init[..n]) < 1000 {
      assert init[..n] == s[..n];
    }
  }

  /** The inductive step of CompressRuns, for any list acc that undoes init. */
  lemma PushStep(init: seq<Command>, c: Command, acc: seq<Command>)
    requires Expand(acc) == init && Padded(acc) && (c.Translate? ==> c.magnitude == 10)
    requires init == [] ==> acc == []
    requires init != [] ==> acc != [] && (Merges(Last(acc), c) <==> Merges(Last(init), c))
    requires init != [] && Last(init).Translate? ==> Last(acc).magnitude == RunMagnitude(init)
    requires RunMagnitude(init + [c]) < 1000
    ensures Expand(Push(acc, c)) == init + [c]
    ensures Padded(Push(acc, c))
    ensures c.Translate? ==> Last(Push(acc, c)).magnitude == RunMagnitude(init + [c])
  {
    var s := init + [c];
    assert s[..|s| - 1] == init && Last(s) == c;
    if init != [] && Merges(Last(init), c) {
      assert Last(init) == s[|s| - 2];
      assert RunMagnitude(s) == RunMagnitude(init) + 10;
    }
    PushUndone(acc, c);
  }

  /**
   * On one-cell translates with runs under 100 cells, the pass is undone by
   * Expand, each translate it leaves covers 1 to 99 cells, and the last one
   * carries ten for each token of the run that ends the input.
   */
  lemma {:induction false} CompressRuns(s: seq<Command>)
    requires Unit(s) && ShortRuns(s)
    ensures Expand(Compress(s)) == s
    ensures Padded(Compress(s))
    ensures s != [] && Last(s).Translate? ==> Last(Compress(s)).magnitude == RunMagnitude(s)
  {
    if s != [] {
      var init, c := s[..|s| - 1], Last(s);
      assert s == init + [c];
      ShortRunsInit(s);
      CompressRuns(init);
      if init != [] {
        MergesThrough(init, c);
      }
      assert RunMagnitude(s) < 1000 by {
        assert s[..|s|] == s;
      }
      PushStep(init, c, Compress(init));
      assert Compress(s) == Push(Compress(init), c);
    }
  }

  /** With runs under 100 cells, every translate the pass leaves is spelled with five characters. */
  lemma CompressedWidth(s: seq<Command>)
    requires Unit(s) && ShortRuns(s)
    ensures forall i :: 0 <= i < |Compress(s)| && Compress(s)[i].Translate? ==> |Render(Compress(s)[i])| == 5
  {
    CompressRuns(s);
    var r := Compress(s);
    forall i | 0 <= i < |r| && r[i].Translate?
      ensures |Render(r[i])| == 5
    {
      FieldWidth(r[i].forward, r[i].magnitude);
    }
  }

  // ---- Distances ----

  /** Sum of w over the list. */
  function Total(s: seq<Command>, w: Command -> int): int {
    if s == [] then 0 else Total(s[..|s| - 1], w) + w(Last(s))
  }

  /** The magnitude a translate carries (ten per cell); zero for other tokens. */
  function Distance(c: Command): int {
    if c.Translate? then c.magnitude else 0
  }

  /**
   * How many path steps a token stands for: magnitude / 10 for a translate,
   * one for a turn, none for a photograph or the stop token.
   */
  function PathSteps(c: Command): int {
    if c.Translate? then c.magnitude / 10 else if c.Turn? then 1 else 0
  }

  lemma {:induction false} TotalAppend(a: seq<Command>, b: seq<Command>, w: Command -> int)
    ensures Total(a + b, w) == Total(a, w) + Total(b, w)
    decreases |b|
  {
    if b == [] {
      assert a + b == a;
    } else {
      var b' := b[..|b| - 1];
      assert (a + b)[..|a + b| - 1] == a + b';
      assert Last(a + b) == Last(b);
      TotalAppend(a, b', w);
    }
  }

  lemma AddOneMore(n: int, k: int)
    ensures (n - 1) * k + k == n * k
  {
  }

  lemma {:induction false} TotalCells(f: bool, m: nat, w: Command -> int)
    ensures Total(Cells(f, m), w) == (m / 10) * w(Translate(f, 10))
    decreases m
  {
    if m >= 10 {
      TotalCells(f, m - 10, w);
      assert (m - 10) / 10 == m / 10 - 1;
      AddOneMore(m / 10, w(Translate(f, 10)));
      TotalAppend(Cells(f, m - 10), [Translate(f, 10)], w);
      assert Total([Translate(f, 10)], w) == w(Translate(f, 10)) by {
        assert [Translate(f, 10)][..0] == [];
      }
    }
  }

  /** Expanding translates of whole cells keeps both the distance and the step count. */
  lemma {:induction false} ExpandKeepsTotals(t: seq<Command>)
    requires forall i :: 0 <= i < |t| && t[i].Translate? ==> t[i].magnitude % 10 == 0
    ensures Total(Expand(t), Distance) == Total(t, Distance)
    ensures Total(Expand(t), PathSteps) == Total(t, PathSteps)
  {
    if t != [] {
      var init, c := t[..|t| - 1], Last(t);
      assert t == init + [c];
      ExpandKeepsTotals(init);
      var u := if c.Translate? then Cells(c.forward, c.magnitude) else [c];
      assert Expand(t) == Expand(init) + u;
      TotalAppend(Expand(init), u, Distance);
      TotalAppend(Expand(init), u, PathSteps);
      if c.Translate? {
        TotalCells(c.forward, c.magnitude, Distance);
        TotalCells(c.forward, c.magnitude, PathSteps);
      } else {
        assert u[..0] == [];
      }
    }
  }

  /**
   * Compression preserves the total translate distance and the number of
   * path steps the tokens stand for.
   */
  lemma CompressKeepsTotals(s: seq<Command>)
    requires Unit(s) && ShortRuns(s)
    ensures Total(Compress(s), Distance) == Total(s, Distance)
    ensures Total(Compress(s), PathSteps) == Total(s, PathSteps)
  {
    CompressRuns(s);
    ExpandKeepsTotals(Compress(s));
  }
}
