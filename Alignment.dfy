/**
 * The word alignment behind the upgrade diff: a Needleman-Wunsch score table
 * over the base words and the upgraded words, and the walk back through the
 * table that picks one optimal alignment.
 *
 * An alignment is a script of tags, one per output word: `A` takes the next
 * base word alone, `B` the next upgraded word alone, and `C` pairs one of
 * each into a single combined word.
 */
module Alignment {
  import opened StringUtil
  import opened CardText

  /** Where an output word comes from: the base text, the upgraded text, or both. */
  datatype Source = A | B | C

  /** Cost of a word present in only one of the two texts. */
  const InsertA: nat := 10
  const InsertB: nat := 10

  function Min(x: int, y: int): (m: int)
    ensures m <= x && m <= y && (m == x || m == y)
  {
    if x <= y then x else y
  }

  // ---------------------------------------------------------------------------
  // The score table
  // ---------------------------------------------------------------------------

  /** Entry `[i][j]` of the score table: the cheapest alignment of `aw[..i]` with `bw[..j]`. */
  function Score(aw: seq<string>, bw: seq<string>, mode: TextMode, i: nat, j: nat): nat
    requires i <= |aw| && j <= |bw|
    decreases i + j
  {
    if i == 0 then 10 * j
    else if j == 0 then 10 * i
    else Min(Score(aw, bw, mode, i - 1, j) + InsertA,
             Min(Score(aw, bw, mode, i, j - 1) + InsertB,
                 Score(aw, bw, mode, i - 1, j - 1) + WordCost(aw[i - 1], bw[j - 1], mode)))
  }

  /** Fills the score table: first column, first row, then the inner rows in order. */
  method FillScore(aw: seq<string>, bw: seq<string>, mode: TextMode) returns (score: array2<int>)
    ensures fresh(score)
    ensures score.Length0 == |aw| + 1 && score.Length1 == |bw| + 1
    ensures forall i, j {:trigger score[i, j]} :: 0 <= i <= |aw| && 0 <= j <= |bw| ==> score[i, j] == Score(aw, bw, mode, i, j)
  {
    score := new int[|aw| + 1, |bw| + 1];
    for ai := 0 to |aw| + 1
      invariant forall i :: 0 <= i < ai ==> score[i, 0] == Score(aw, bw, mode, i, 0)
    {
      score[ai, 0] := 10 * ai;
    }
    for bi := 0 to |bw| + 1
      invariant forall i {:trigger score[i, 0]} :: 0 <= i <= |aw| ==> score[i, 0] == Score(aw, bw, mode, i, 0)
      invariant forall j :: 0 <= j < bi ==> score[0, j] == Score(aw, bw, mode, 0, j)
    {
      score[0, bi] := 10 * bi;
    }
    for ai := 1 to |aw| + 1
      invariant forall i, j {:trigger score[i, j]} :: 0 <= i <= |aw| && 0 <= j <= |bw| && (i < ai || j == 0) ==>
        score[i, j] == Score(aw, bw, mode, i, j)
    {
      FillRow(score, aw, bw, mode, ai);
    }
  }

  /** The inner loop: row `ai` of the table, from the rows above it and its first cell. */
  method FillRow(score: array2<int>, aw: seq<string>, bw: seq<string>, mode: TextMode, ai: nat)
    requires score.Length0 == |aw| + 1 && score.Length1 == |bw| + 1 && 0 < ai <= |aw|
    requires forall i, j {:trigger score[i, j]} :: 0 <= i <= |aw| && 0 <= j <= |bw| && (i < ai || j == 0) ==>
      score[i, j] == Score(aw, bw, mode, i, j)
    modifies score
    ensures forall i, j {:trigger score[i, j]} :: 0 <= i <= |aw| && 0 <= j <= |bw| && (i <= ai || j == 0) ==>
      score[i, j] == Score(aw, bw, mode, i, j)
  {
    for bi := 1 to |bw| + 1
      invariant forall i, j {:trigger score[i, j]} :: 0 <= i <= |aw| && 0 <= j <= |bw| && (i < ai || j == 0 || (i == ai && j < bi)) ==>
        score[i, j] == Score(aw, bw, mode, i, j)
    {
      var up, left, diag := score[ai - 1, bi], score[ai, bi - 1], score[ai - 1, bi - 1];
      ScoreCell(aw, bw, mode, ai, bi, up, left, diag);
      score[ai, bi] := Min(up + InsertA, Min(left + InsertB, diag + WordCost(aw[ai - 1], bw[bi - 1], mode)));
    }
  }

  /** An inner cell of the table from its three neighbours, as the recurrence states. */
  lemma ScoreCell(aw: seq<string>, bw: seq<string>, mode: TextMode, i: nat, j: nat, up: int, left: int, diag: int)
    requires 0 < i <= |aw| && 0 < j <= |bw|
    requires up == Score(aw, bw, mode, i - 1, j) && left == Score(aw, bw, mode, i, j - 1)
    requires diag == Score(aw, bw, mode, i - 1, j - 1)
    ensures Score(aw, bw, mode, i, j) == Min(up + InsertA, Min(left + InsertB, diag + WordCost(aw[i - 1], bw[j - 1], mode)))
  {
  }

  // ---------------------------------------------------------------------------
  // Alignment scripts
  // ---------------------------------------------------------------------------
  //
  // A script lists the steps of an alignment in the order the walk back meets
  // them: last output word first.

  /** Tag `x` can be the last step of an alignment of `i` base words with `j` upgraded words. */
  predicate Possible(x: Source, i: nat, j: nat)
  {
    (x != B ==> i > 0) && (x != A ==> j > 0)
  }

  /** Base words left before a step tagged `x`. */
  function PrevA(x: Source, i: nat): nat
  {
    if x == B || i == 0 then i else i - 1
  }

  /** Upgraded words left before a step tagged `x`. */
  function PrevB(x: Source, j: nat): nat
  {
    if x == A || j == 0 then j else j - 1
  }

  /** Script `t` consumes exactly `i` base words and `j` upgraded words. */
  predicate Fits(t: seq<Source>, i: nat, j: nat)
    decreases |t|
  {
    if t == [] then i == 0 && j == 0
    else Possible(t[0], i, j) && Fits(t[1..], PrevA(t[0], i), PrevB(t[0], j))
  }

  /** The cost of a step tagged `x` that ends at `aw[..i]`, `bw[..j]`. */
  function StepCost(aw: seq<string>, bw: seq<string>, mode: TextMode, x: Source, i: nat, j: nat): nat
    requires i <= |aw| && j <= |bw| && Possible(x, i, j)
  {
    match x
    case A => InsertA
    case B => InsertB
    case C => WordCost(aw[i - 1], bw[j - 1], mode)
  }

  /** The output word of a step tagged `x`: the word itself, or the combined replacement. */
  function StepWord(aw: seq<string>, bw: seq<string>, mode: TextMode, x: Source, i: nat, j: nat): string
    requires i <= |aw| && j <= |bw| && Possible(x, i, j)
  {
    match x
    case A => aw[i - 1]
    case B => bw[j - 1]
    case C => WordReplacement(aw[i - 1], bw[j - 1], mode)
  }

  /** The total cost of script `t` from `[i][j]` (meaningful when `Fits(t, i, j)`). */
  function Cost(aw: seq<string>, bw: seq<string>, mode: TextMode, t: seq<Source>, i: nat, j: nat): nat
    requires i <= |aw| && j <= |bw|
    decreases |t|
  {
    if t == [] || !Possible(t[0], i, j) then 0
    else StepCost(aw, bw, mode, t[0], i, j) + Cost(aw, bw, mode, t[1..], PrevA(t[0], i), PrevB(t[0], j))
  }

  /** The output words of script `t` from `[i][j]`, last word first (meaningful when `Fits(t, i, j)`). */
  function Emit(aw: seq<string>, bw: seq<string>, mode: TextMode, t: seq<Source>, i: nat, j: nat): seq<string>
    requires i <= |aw| && j <= |bw|
    decreases |t|
  {
    if t == [] || !Possible(t[0], i, j) then []
    else [StepWord(aw, bw, mode, t[0], i, j)] + Emit(aw, bw, mode, t[1..], PrevA(t[0], i), PrevB(t[0], j))
  }

  /** A fitting script emits one word per step. */
  lemma {:induction false} EmitLength(aw: seq<string>, bw: seq<string>, mode: TextMode, t: seq<Source>, i: nat, j: nat)
    requires i <= |aw| && j <= |bw| && Fits(t, i, j)
    ensures |Emit(aw, bw, mode, t, i, j)| == |t|
    decreases |t|
  {
    if t != [] {
      EmitLength(aw, bw, mode, t[1..], PrevA(t[0], i), PrevB(t[0], j));
    }
  }

  // ---------------------------------------------------------------------------
  // The walk back over a given table
  // ---------------------------------------------------------------------------

  /** `T` has a cell for every pair of prefixes of `n` and `m` words. */
  predicate Shaped(T: seq<seq<int>>, n: nat, m: nat)
  {
    |T| == n + 1 && forall i :: 0 <= i <= n ==> |T[i]| == m + 1
  }

  /**
   * The step the walk back takes at `[i][j]` of table `T`: an upgraded word
   * alone wins ties, then a base word alone, then a pair; on the table's
   * edges only one kind of step is left.
   */
  function Pick(aw: seq<string>, bw: seq<string>, mode: TextMode, T: seq<seq<int>>, i: nat, j: nat): (x: Source)
    requires Shaped(T, |aw|, |bw|) && i <= |aw| && j <= |bw| && (i > 0 || j > 0)
    ensures Possible(x, i, j)
  {
    if i == 0 then B
    else if j == 0 then A
    else
      var acost := T[i - 1][j] + InsertA;
      var bcost := T[i][j - 1] + InsertB;
      var replacecost := T[i - 1][j - 1] + WordCost(aw[i - 1], bw[j - 1], mode);
      if bcost <= acost && bcost <= replacecost then B
      else if acost <= replacecost then A
      else C
  }

  /** What taking step `x` last costs: the table entry it comes from plus the step itself. */
  function Via(aw: seq<string>, bw: seq<string>, mode: TextMode, T: seq<seq<int>>, x: Source, i: nat, j: nat): int
    requires Shaped(T, |aw|, |bw|) && i <= |aw| && j <= |bw| && Possible(x, i, j)
  {
    T[PrevA(x, i)][PrevB(x, j)] + StepCost(aw, bw, mode, x, i, j)
  }

  /** The tie-break order of the walk back: an upgraded word alone, then a base word alone, then a pair. */
  function TieRank(x: Source): nat
  {
    match x
    case B => 0
    case A => 1
    case C => 2
  }

  /**
   * The walk back takes a cheapest allowed step, and among equally cheap
   * steps the first in tie-break order.
   */
  lemma PickCheapest(aw: seq<string>, bw: seq<string>, mode: TextMode, T: seq<seq<int>>, i: nat, j: nat)
    requires Shaped(T, |aw|, |bw|) && i <= |aw| && j <= |bw| && (i > 0 || j > 0)
    ensures var x := Pick(aw, bw, mode, T, i, j);
      forall y :: Possible(y, i, j) ==> Via(aw, bw, mode, T, x, i, j) <= Via(aw, bw, mode, T, y, i, j)
    ensures var x := Pick(aw, bw, mode, T, i, j);
      forall y :: Possible(y, i, j) && Via(aw, bw, mode, T, y, i, j) == Via(aw, bw, mode, T, x, i, j) ==> TieRank(x) <= TieRank(y)
  {
  }

  /** The steps the walk back takes through `T` from `[i][j]` to `[0][0]`. */
  function Walk(aw: seq<string>, bw: seq<string>, mode: TextMode, T: seq<seq<int>>, i: nat, j: nat): seq<Source>
    requires Shaped(T, |aw|, |bw|) && i <= |aw| && j <= |bw|
    decreases i + j
  {
    if i == 0 && j == 0 then []
    else
      var x := Pick(aw, bw, mode, T, i, j);
      [x] + Walk(aw, bw, mode, T, PrevA(x, i), PrevB(x, j))
  }

  /** The words the walk back emits from `[i][j]`, last word first. */
  function WalkWords(aw: seq<string>, bw: seq<string>, mode: TextMode, T: seq<seq<int>>, i: nat, j: nat): seq<string>
    requires Shaped(T, |aw|, |bw|) && i <= |aw| && j <= |bw|
    decreases i + j
  {
    if i == 0 && j == 0 then []
    else
      var x := Pick(aw, bw, mode, T, i, j);
      [StepWord(aw, bw, mode, x, i, j)] + WalkWords(aw, bw, mode, T, PrevA(x, i), PrevB(x, j))
  }

  /** The walk back is a script for all the words, and it emits exactly that script's words. */
  lemma {:induction false} WalkFits(aw: seq<string>, bw: seq<string>, mode: TextMode, T: seq<seq<int>>, i: nat, j: nat)
    requires Shaped(T, |aw|, |bw|) && i <= |aw| && j <= |bw|
    ensures Fits(Walk(aw, bw, mode, T, i, j), i, j)
    ensures WalkWords(aw, bw, mode, T, i, j) == Emit(aw, bw, mode, Walk(aw, bw, mode, T, i, j), i, j)
    decreases i + j
  {
    if i > 0 || j > 0 {
      var x := Pick(aw, bw, mode, T, i, j);
      WalkFits(aw, bw, mode, T, PrevA(x, i), PrevB(x, j));
      var u := Walk(aw, bw, mode, T, PrevA(x, i), PrevB(x, j));
      assert ([x] + u)[1..] == u;
    }
  }

  /** One step of the walk back, as `Walk` and `WalkWords` see it. */
  lemma WalkUnfold(aw: seq<string>, bw: seq<string>, mode: TextMode, T: seq<seq<int>>, i: nat, j: nat)
    requires Shaped(T, |aw|, |bw|) && i <= |aw| && j <= |bw| && (i > 0 || j > 0)
    ensures var x := Pick(aw, bw, mode, T, i, j);
      && Walk(aw, bw, mode, T, i, j) == [x] + Walk(aw, bw, mode, T, PrevA(x, i), PrevB(x, j))
      && WalkWords(aw, bw, mode, T, i, j) == [StepWord(aw, bw, mode, x, i, j)] + WalkWords(aw, bw, mode, T, PrevA(x, i), PrevB(x, j))
  {
  }

  /** `s` back to front, as `Collections.reverse` leaves it. */
  function Reverse<T>(s: seq<T>): (r: seq<T>)
    ensures |r| == |s|
  {
    if s == [] then [] else [s[|s| - 1]] + Reverse(s[..|s| - 1])
  }

  /** Element `k` of the reversed list is element `|s| - 1 - k` of the list. */
  lemma {:induction false} ReverseIndex<T>(s: seq<T>)
    ensures forall k :: 0 <= k < |s| ==> Reverse(s)[k] == s[|s| - 1 - k]
    decreases |s|
  {
    if s != [] {
      var s' := s[..|s| - 1];
      ReverseIndex(s');
      forall k | 0 <= k < |s|
        ensures Reverse(s)[k] == s[|s| - 1 - k]
      {
        ReverseAt(s, k);
      }
    }
  }

  lemma {:induction false} ReverseAt<T>(s: seq<T>, k: nat)
    requires k < |s|
    ensures Reverse(s)[k] == s[|s| - 1 - k]
    decreases |s|
  {
    if k > 0 {
      var s' := s[..|s| - 1];
      assert Reverse(s)[k] == Reverse(s')[k - 1];
      ReverseAt(s', k - 1);
    }
  }

  lemma {:induction false} ReversePrepend<T>(x: T, s: seq<T>)
    ensures Reverse([x] + s) == Reverse(s) + [x]
    decreases |s|
  {
    if s != [] {
      var s' := s[..|s| - 1];
      assert ([x] + s)[..|s|] == [x] + s';
      ReversePrepend(x, s');
    } else {
      assert ([x] + s)[..0] == [];
    }
  }

  /** `Reverse` turns the list back: reversing twice gives the list itself. */
  lemma {:induction false} ReverseReverse<T>(s: seq<T>)
    ensures Reverse(Reverse(s)) == s
    decreases |s|
  {
    if s != [] {
      var s' := s[..|s| - 1];
      ReverseReverse(s');
      ReversePrepend(s[|s| - 1], Reverse(s'));
      assert s == s' + [s[|s| - 1]];
    }
  }

  /** `n` steps all tagged `x`. */
  function Run(x: Source, n: nat): (t: seq<Source>)
    ensures |t| == n && forall k :: 0 <= k < n ==> t[k] == x
  {
    seq(n, k => x)
  }

  /** From `[0][j]` the walk back takes the remaining upgraded words alone, last first. */
  lemma {:induction false} WalkAlongTop(aw: seq<string>, bw: seq<string>, mode: TextMode, T: seq<seq<int>>, j: nat)
    requires Shaped(T, |aw|, |bw|) && j <= |bw|
    ensures Walk(aw, bw, mode, T, 0, j) == Run(B, j)
    ensures WalkWords(aw, bw, mode, T, 0, j) == Reverse(bw[..j])
  {
    if j > 0 {
      WalkAlongTop(aw, bw, mode, T, j - 1);
      WalkUnfold(aw, bw, mode, T, 0, j);
      assert Run(B, j) == [B] + Run(B, j - 1);
      assert bw[..j][..j - 1] == bw[..j - 1];
    }
  }

  /** From `[i][0]` the walk back takes the remaining base words alone, last first. */
  lemma {:induction false} WalkAlongLeft(aw: seq<string>, bw: seq<string>, mode: TextMode, T: seq<seq<int>>, i: nat)
    requires Shaped(T, |aw|, |bw|) && i <= |aw|
    ensures Walk(aw, bw, mode, T, i, 0) == Run(A, i)
    ensures WalkWords(aw, bw, mode, T, i, 0) == Reverse(aw[..i])
  {
    if i > 0 {
      WalkAlongLeft(aw, bw, mode, T, i - 1);
      WalkUnfold(aw, bw, mode, T, i, 0);
      assert Run(A, i) == [A] + Run(A, i - 1);
      assert aw[..i][..i - 1] == aw[..i - 1];
    }
  }

  /** The walk back through `T` has collected `rs`/`rw` on its way from the corner to `[ai][bi]`. */
  ghost predicate Walked(aw: seq<string>, bw: seq<string>, mode: TextMode, T: seq<seq<int>>, ai: nat, bi: nat,
                         W: seq<Source>, WW: seq<string>, rs: seq<Source>, rw: seq<string>)
    requires Shaped(T, |aw|, |bw|) && ai <= |aw| && bi <= |bw|
  {
    W == rs + Walk(aw, bw, mode, T, ai, bi) && WW == rw + WalkWords(aw, bw, mode, T, ai, bi)
  }

  /** One step of the walk back keeps `Walked`. */
  lemma WalkStep(aw: seq<string>, bw: seq<string>, mode: TextMode, T: seq<seq<int>>, i: nat, j: nat,
                 W: seq<Source>, WW: seq<string>, rs: seq<Source>, rw: seq<string>, x: Source, w: string)
    requires Shaped(T, |aw|, |bw|) && i <= |aw| && j <= |bw| && (i > 0 || j > 0)
    requires Walked(aw, bw, mode, T, i, j, W, WW, rs, rw)
    requires x == Pick(aw, bw, mode, T, i, j) && w == StepWord(aw, bw, mode, x, i, j)
    ensures Walked(aw, bw, mode, T, PrevA(x, i), PrevB(x, j), W, WW, rs + [x], rw + [w])
  {
    WalkUnfold(aw, bw, mode, T, i, j);
    var u := Walk(aw, bw, mode, T, PrevA(x, i), PrevB(x, j));
    var v := WalkWords(aw, bw, mode, T, PrevA(x, i), PrevB(x, j));
    assert rs + ([x] + u) == (rs + [x]) + u;
    assert rw + ([w] + v) == (rw + [w]) + v;
  }

  /** On an edge, what remains of the walk back is a run of single-source words. */
  ghost predicate OnEdge(aw: seq<string>, bw: seq<string>, ai: nat, bi: nat,
                         W: seq<Source>, WW: seq<string>, rs: seq<Source>, rw: seq<string>)
    requires ai <= |aw| && bi <= |bw|
  {
    W == rs + Run(B, bi) + Run(A, ai) && WW == rw + Reverse(bw[..bi]) + Reverse(aw[..ai])
  }

  /** Once the walk back reaches an edge, the rest of it is a single run. */
  lemma WalkedOnEdge(aw: seq<string>, bw: seq<string>, mode: TextMode, T: seq<seq<int>>, ai: nat, bi: nat,
                     W: seq<Source>, WW: seq<string>, rs: seq<Source>, rw: seq<string>)
    requires Shaped(T, |aw|, |bw|) && ai <= |aw| && bi <= |bw| && (ai == 0 || bi == 0)
    requires Walked(aw, bw, mode, T, ai, bi, W, WW, rs, rw)
    ensures OnEdge(aw, bw, ai, bi, W, WW, rs, rw)
  {
    if ai == 0 {
      WalkAlongTop(aw, bw, mode, T, bi);
      assert Run(A, 0) == [] && aw[..0] == [];
      assert rs + Run(B, bi) + [] == rs + Run(B, bi);
      assert rw + Reverse(bw[..bi]) + [] == rw + Reverse(bw[..bi]);
    } else {
      WalkAlongLeft(aw, bw, mode, T, ai);
      assert Run(B, 0) == [] && bw[..0] == [];
      assert rs + [] + Run(A, ai) == rs + Run(A, ai);
      assert rw + [] + Reverse(aw[..ai]) == rw + Reverse(aw[..ai]);
    }
  }

  /** Taking the last remaining upgraded word keeps `OnEdge`. */
  lemma OnEdgeStepB(aw: seq<string>, bw: seq<string>, bi: nat,
                    W: seq<Source>, WW: seq<string>, rs: seq<Source>, rw: seq<string>)
    requires 0 < bi <= |bw| && OnEdge(aw, bw, 0, bi, W, WW, rs, rw)
    ensures OnEdge(aw, bw, 0, bi - 1, W, WW, rs + [B], rw + [bw[bi - 1]])
  {
    assert Run(B, bi) == [B] + Run(B, bi - 1);
    assert bw[..bi][..bi - 1] == bw[..bi - 1];
    assert rs + ([B] + Run(B, bi - 1)) == rs + [B] + Run(B, bi - 1);
    assert rw + ([bw[bi - 1]] + Reverse(bw[..bi - 1])) == rw + [bw[bi - 1]] + Reverse(bw[..bi - 1]);
  }

  /** Taking the last remaining base word keeps `OnEdge`. */
  lemma OnEdgeStepA(aw: seq<string>, bw: seq<string>, ai: nat,
                    W: seq<Source>, WW: seq<string>, rs: seq<Source>, rw: seq<string>)
    requires 0 < ai <= |aw| && OnEdge(aw, bw, ai, 0, W, WW, rs, rw)
    ensures OnEdge(aw, bw, ai - 1, 0, W, WW, rs + [A], rw + [aw[ai - 1]])
  {
    assert Run(A, ai) == [A] + Run(A, ai - 1);
    assert aw[..ai][..ai - 1] == aw[..ai - 1];
    assert rs + Run(B, 0) + ([A] + Run(A, ai - 1)) == rs + [A] + Run(B, 0) + Run(A, ai - 1);
    assert rw + Reverse(bw[..0]) + ([aw[ai - 1]] + Reverse(aw[..ai - 1])) == rw + [aw[ai - 1]] + Reverse(bw[..0]) + Reverse(aw[..ai - 1]);
  }

  /** At `[0][0]` nothing of the walk back remains. */
  lemma OnEdgeDone(aw: seq<string>, bw: seq<string>, W: seq<Source>, WW: seq<string>, rs: seq<Source>, rw: seq<string>)
    requires OnEdge(aw, bw, 0, 0, W, WW, rs, rw)
    ensures rs == W && rw == WW
  {
    assert Run(B, 0) == [] && Run(A, 0) == [] && bw[..0] == [] && aw[..0] == [];
  }

  /** The contents of the score array, row by row. */
  ghost function Rows(score: array2<int>): (T: seq<seq<int>>)
    reads score
    ensures |T| == score.Length0 && forall i :: 0 <= i < |T| ==> |T[i]| == score.Length1
  {
    seq(score.Length0, i requires 0 <= i < score.Length0 reads score =>
      seq(score.Length1, j requires 0 <= j < score.Length1 reads score => score[i, j]))
  }

  lemma RowsAt(score: array2<int>, i: nat, j: nat)
    requires i < score.Length0 && j < score.Length1
    ensures Rows(score)[i][j] == score[i, j]
  {
  }

  /**
   * The step the walk back takes at `[ai][bi]`, away from the table's edges,
   * read off the score array, with the word that step emits.
   */
  method StepAt(aw: seq<string>, bw: seq<string>, mode: TextMode, score: array2<int>, ai: nat, bi: nat)
    returns (x: Source, w: string)
    requires score.Length0 == |aw| + 1 && score.Length1 == |bw| + 1
    requires 0 < ai <= |aw| && 0 < bi <= |bw|
    ensures x == Pick(aw, bw, mode, Rows(score), ai, bi)
    ensures w == StepWord(aw, bw, mode, x, ai, bi)
  {
    RowsAt(score, ai - 1, bi);
    RowsAt(score, ai, bi - 1);
    RowsAt(score, ai - 1, bi - 1);
    var acost := score[ai - 1, bi] + InsertA;
    var bcost := score[ai, bi - 1] + InsertB;
    var replacecost := score[ai - 1, bi - 1] + WordCost(aw[ai - 1], bw[bi - 1], mode);
    if bcost <= acost && bcost <= replacecost {
      x, w := B, bw[bi - 1];
    } else if acost <= replacecost {
      x, w := A, aw[ai - 1];
    } else {
      x, w := C, WordReplacement(aw[ai - 1], bw[bi - 1], mode);
    }
  }

  /**
   * The last two loops of the walk back: once it reaches an edge of the
   * table, it takes the remaining upgraded words, then the remaining base
   * words, each last first.
   */
  method TakeRemaining(aw: seq<string>, bw: seq<string>, ai: nat, bi: nat, rs: seq<Source>, rw: seq<string>)
    returns (rs': seq<Source>, rw': seq<string>)
    requires ai <= |aw| && bi <= |bw| && (ai == 0 || bi == 0)
    ensures rs' == rs + Run(B, bi) + Run(A, ai)
    ensures rw' == rw + Reverse(bw[..bi]) + Reverse(aw[..ai])
  {
    ghost var W, WW := rs + Run(B, bi) + Run(A, ai), rw + Reverse(bw[..bi]) + Reverse(aw[..ai]);
    var i, j := ai, bi;
    rs', rw' := rs, rw;
    while j > 0
      invariant 0 <= j <= |bw| && (i == 0 || j == 0) && i <= |aw|
      invariant OnEdge(aw, bw, i, j, W, WW, rs', rw')
    {
      var w := bw[j - 1];
      OnEdgeStepB(aw, bw, j, W, WW, rs', rw');
      rs', rw' := rs' + [B], rw' + [w];
      j := j - 1;
    }
    while i > 0
      invariant 0 <= i <= |aw| && j == 0
      invariant OnEdge(aw, bw, i, j, W, WW, rs', rw')
    {
      var w := aw[i - 1];
      OnEdgeStepA(aw, bw, i, W, WW, rs', rw');
      rs', rw' := rs' + [A], rw' + [w];
      i := i - 1;
    }
    OnEdgeDone(aw, bw, W, WW, rs', rw');
  }

  /**
   * Walks back from the bottom-right corner of the score table, collecting the
   * words and their sources last first, then reverses both lists.
   */
  method WalkBack(aw: seq<string>, bw: seq<string>, mode: TextMode, score: array2<int>)
    returns (words: seq<string>, source: seq<Source>)
    requires score.Length0 == |aw| + 1 && score.Length1 == |bw| + 1
    ensures source == Reverse(Walk(aw, bw, mode, Rows(score), |aw|, |bw|))
    ensures words == Reverse(WalkWords(aw, bw, mode, Rows(score), |aw|, |bw|))
  {
    ghost var T := Rows(score);
    ghost var W := Walk(aw, bw, mode, T, |aw|, |bw|);
    ghost var WW := WalkWords(aw, bw, mode, T, |aw|, |bw|);
    var rw: seq<string> := [];
    var rs: seq<Source> := [];
    var ai, bi := |aw|, |bw|;
    assert rs + W == W && rw + WW == WW;
    while ai > 0 && bi > 0
      invariant 0 <= ai <= |aw| && 0 <= bi <= |bw|
      invariant Walked(aw, bw, mode, T, ai, bi, W, WW, rs, rw)
      decreases ai + bi
    {
      var x, w := StepAt(aw, bw, mode, score, ai, bi);
      WalkStep(aw, bw, mode, T, ai, bi, W, WW, rs, rw, x, w);
      rs, rw := rs + [x], rw + [w];
      ai, bi := PrevA(x, ai), PrevB(x, bi);
    }
    WalkedOnEdge(aw, bw, mode, T, ai, bi, W, WW, rs, rw);
    rs, rw := TakeRemaining(aw, bw, ai, bi, rs, rw);
    words := Reverse(rw);
    source := Reverse(rs);
  }

  // ---------------------------------------------------------------------------
  // Tables that follow the score recurrence
  // ---------------------------------------------------------------------------

  /** Cell `[i][j]` of `T` follows the score recurrence. */
  predicate CellOk(aw: seq<string>, bw: seq<string>, mode: TextMode, T: seq<seq<int>>, i: nat, j: nat)
    requires Shaped(T, |aw|, |bw|) && i <= |aw| && j <= |bw|
  {
    T[i][j] == if i == 0 then 10 * j
               else if j == 0 then 10 * i
               else Min(T[i - 1][j] + InsertA, Min(T[i][j - 1] + InsertB, T[i - 1][j - 1] + WordCost(aw[i - 1], bw[j - 1], mode)))
  }

  /** Every cell of `T` follows the score recurrence. */
  predicate Recurrent(aw: seq<string>, bw: seq<string>, mode: TextMode, T: seq<seq<int>>)
  {
    Shaped(T, |aw|, |bw|) && forall i, j :: 0 <= i <= |aw| && 0 <= j <= |bw| ==> CellOk(aw, bw, mode, T, i, j)
  }

  /** A cell of a recurrent table is at most one insertion above the cell before either word. */
  lemma RecurrentSteps(aw: seq<string>, bw: seq<string>, mode: TextMode, T: seq<seq<int>>, i: nat, j: nat)
    requires Recurrent(aw, bw, mode, T) && i <= |aw| && j <= |bw|
    ensures i > 0 ==> T[i][j] <= T[i - 1][j] + InsertA
    ensures j > 0 ==> T[i][j] <= T[i][j - 1] + InsertB
    ensures i > 0 && j > 0 ==> T[i][j] <= T[i - 1][j - 1] + WordCost(aw[i - 1], bw[j - 1], mode)
  {
    assert CellOk(aw, bw, mode, T, i, j);
    if i > 0 && j == 0 {
      assert CellOk(aw, bw, mode, T, i - 1, j);
    }
    if i == 0 && j > 0 {
      assert CellOk(aw, bw, mode, T, i, j - 1);
    }
  }

  /** No script that fits costs less than the table's entry. */
  lemma {:induction false} RecurrentIsMinimal(aw: seq<string>, bw: seq<string>, mode: TextMode, T: seq<seq<int>>, t: seq<Source>, i: nat, j: nat)
    requires Recurrent(aw, bw, mode, T) && i <= |aw| && j <= |bw| && Fits(t, i, j)
    ensures T[i][j] <= Cost(aw, bw, mode, t, i, j)
    decreases |t|
  {
    if t != [] {
      RecurrentIsMinimal(aw, bw, mode, T, t[1..], PrevA(t[0], i), PrevB(t[0], j));
      RecurrentSteps(aw, bw, mode, T, i, j);
    } else {
      assert CellOk(aw, bw, mode, T, 0, 0);
    }
  }

  /** The walk back through a recurrent table costs exactly the table's entry. */
  lemma {:induction false} RecurrentWalkCost(aw: seq<string>, bw: seq<string>, mode: TextMode, T: seq<seq<int>>, i: nat, j: nat)
    requires Recurrent(aw, bw, mode, T) && i <= |aw| && j <= |bw|
    ensures Cost(aw, bw, mode, Walk(aw, bw, mode, T, i, j), i, j) == T[i][j]
    decreases i + j
  {
    assert CellOk(aw, bw, mode, T, i, j);
    if i > 0 || j > 0 {
      var x := Pick(aw, bw, mode, T, i, j);
      RecurrentWalkCost(aw, bw, mode, T, PrevA(x, i), PrevB(x, j));
      WalkUnfold(aw, bw, mode, T, i, j);
      if i == 0 {
        assert CellOk(aw, bw, mode, T, i, j - 1);
      } else if j == 0 {
        assert CellOk(aw, bw, mode, T, i - 1, j);
      }
    }
  }

  /** Every pair in script `t` is of equal words or of a word and its plural. */
  predicate CheapPairs(aw: seq<string>, bw: seq<string>, mode: TextMode, t: seq<Source>, i: nat, j: nat)
    requires i <= |aw| && j <= |bw|
    decreases |t|
  {
    t == [] || !Possible(t[0], i, j) ||
    ((t[0] == C ==> WordCost(aw[i - 1], bw[j - 1], mode) < 21)
     && CheapPairs(aw, bw, mode, t[1..], PrevA(t[0], i), PrevB(t[0], j)))
  }

  /**
   * Two unrelated words are never combined: a substitution (21) costs more
   * than a deletion plus an insertion (20), so the walk back through a
   * recurrent table pairs only equal words and plurals.
   */
  lemma {:induction false} RecurrentPairsCheaply(aw: seq<string>, bw: seq<string>, mode: TextMode, T: seq<seq<int>>, i: nat, j: nat)
    requires Recurrent(aw, bw, mode, T) && i <= |aw| && j <= |bw|
    ensures CheapPairs(aw, bw, mode, Walk(aw, bw, mode, T, i, j), i, j)
    decreases i + j
  {
    if i > 0 || j > 0 {
      var x := Pick(aw, bw, mode, T, i, j);
      RecurrentPairsCheaply(aw, bw, mode, T, PrevA(x, i), PrevB(x, j));
      WalkUnfold(aw, bw, mode, T, i, j);
      if i > 0 && j > 0 {
        RecurrentSteps(aw, bw, mode, T, i - 1, j);
        WordCostMeaning(aw[i - 1], bw[j - 1], mode);
      }
    }
  }

  /**
   * Equal word lists and a table with zeros down the diagonal and no negative
   * cell: the walk back pairs every word with itself.
   */
  lemma {:induction false} DiagonalWalk(aw: seq<string>, mode: TextMode, T: seq<seq<int>>, i: nat)
    requires Shaped(T, |aw|, |aw|) && i <= |aw|
    requires forall k :: 0 <= k <= i ==> T[k][k] == 0
    requires forall k, l :: 0 <= k <= |aw| && 0 <= l <= |aw| ==> T[k][l] >= 0
    ensures Walk(aw, aw, mode, T, i, i) == Run(C, i)
    ensures WalkWords(aw, aw, mode, T, i, i) == Reverse(aw[..i])
  {
    if i > 0 {
      assert Pick(aw, aw, mode, T, i, i) == C by {
        assert T[i - 1][i - 1] == 0 && T[i][i - 1] >= 0 && T[i - 1][i] >= 0;
      }
      WalkUnfold(aw, aw, mode, T, i, i);
      DiagonalWalk(aw, mode, T, i - 1);
      assert Run(C, i) == [C] + Run(C, i - 1);
      assert Reverse(aw[..i]) == [aw[i - 1]] + Reverse(aw[..i - 1]) by {
        assert aw[..i][..i - 1] == aw[..i - 1];
      }
    }
  }

  // ---------------------------------------------------------------------------
  // The alignment of two word lists
  // ---------------------------------------------------------------------------

  /** The whole score table as a value. */
  function Table(aw: seq<string>, bw: seq<string>, mode: TextMode): (T: seq<seq<int>>)
    ensures Shaped(T, |aw|, |bw|)
    ensures forall i, j :: 0 <= i <= |aw| && 0 <= j <= |bw| ==> T[i][j] == Score(aw, bw, mode, i, j)
  {
    seq(|aw| + 1, i requires 0 <= i <= |aw| =>
      seq(|bw| + 1, j requires 0 <= j <= |bw| => Score(aw, bw, mode, i, j) as int))
  }

  /** The score table follows its recurrence. */
  lemma TableRecurrent(aw: seq<string>, bw: seq<string>, mode: TextMode)
    ensures Recurrent(aw, bw, mode, Table(aw, bw, mode))
  {
    var T := Table(aw, bw, mode);
    forall i, j | 0 <= i <= |aw| && 0 <= j <= |bw|
      ensures CellOk(aw, bw, mode, T, i, j)
    {
      if i > 0 && j > 0 {
        assert T[i - 1][j] == Score(aw, bw, mode, i - 1, j);
        assert T[i][j - 1] == Score(aw, bw, mode, i, j - 1);
        assert T[i - 1][j - 1] == Score(aw, bw, mode, i - 1, j - 1);
      }
    }
  }

  /** A filled score array holds exactly the table. */
  lemma RowsOfFilled(aw: seq<string>, bw: seq<string>, mode: TextMode, score: array2<int>)
    requires score.Length0 == |aw| + 1 && score.Length1 == |bw| + 1
    requires forall i, j {:trigger score[i, j]} :: 0 <= i <= |aw| && 0 <= j <= |bw| ==> score[i, j] == Score(aw, bw, mode, i, j)
    ensures Rows(score) == Table(aw, bw, mode)
  {
    var R, T := Rows(score), Table(aw, bw, mode);
    forall i | 0 <= i <= |aw|
      ensures R[i] == T[i]
    {
      forall j | 0 <= j <= |bw|
        ensures R[i][j] == T[i][j]
      {
        RowsAt(score, i, j);
      }
    }
  }

  /** The alignment of the two word lists, in reading order. */
  function Aligned(aw: seq<string>, bw: seq<string>, mode: TextMode): seq<Source>
  {
    Reverse(Walk(aw, bw, mode, Table(aw, bw, mode), |aw|, |bw|))
  }

  /** The words of the alignment, in reading order. */
  function AlignedWords(aw: seq<string>, bw: seq<string>, mode: TextMode): (ws: seq<string>)
    ensures |ws| == |Aligned(aw, bw, mode)|
  {
    var T := Table(aw, bw, mode);
    WalkFits(aw, bw, mode, T, |aw|, |bw|);
    EmitLength(aw, bw, mode, Walk(aw, bw, mode, T, |aw|, |bw|), |aw|, |bw|);
    Reverse(WalkWords(aw, bw, mode, T, |aw|, |bw|))
  }

  /**
   * The walk back returns a cheapest alignment: it costs exactly the table's
   * score, and no script that fits costs less.
   */
  lemma WalkIsOptimal(aw: seq<string>, bw: seq<string>, mode: TextMode, t: seq<Source>)
    requires Fits(t, |aw|, |bw|)
    ensures var W := Walk(aw, bw, mode, Table(aw, bw, mode), |aw|, |bw|);
      && Cost(aw, bw, mode, W, |aw|, |bw|) == Score(aw, bw, mode, |aw|, |bw|)
      && Cost(aw, bw, mode, W, |aw|, |bw|) <= Cost(aw, bw, mode, t, |aw|, |bw|)
  {
    var T := Table(aw, bw, mode);
    TableRecurrent(aw, bw, mode);
    RecurrentWalkCost(aw, bw, mode, T, |aw|, |bw|);
    RecurrentIsMinimal(aw, bw, mode, T, t, |aw|, |bw|);
  }

  /** The alignment pairs only equal words and plurals. */
  lemma WalkPairsCheaply(aw: seq<string>, bw: seq<string>, mode: TextMode)
    ensures CheapPairs(aw, bw, mode, Walk(aw, bw, mode, Table(aw, bw, mode), |aw|, |bw|), |aw|, |bw|)
  {
    TableRecurrent(aw, bw, mode);
    RecurrentPairsCheaply(aw, bw, mode, Table(aw, bw, mode), |aw|, |bw|);
  }

  /** Identical word lists align with themselves at no cost. */
  lemma {:induction false} ScoreDiagonal(aw: seq<string>, mode: TextMode, i: nat)
    requires i <= |aw|
    ensures Score(aw, aw, mode, i, i) == 0
  {
    if i > 0 {
      ScoreDiagonal(aw, mode, i - 1);
    }
  }

  /** Identical word lists are aligned word for word, and the words come out unchanged. */
  lemma AlignedIdentical(aw: seq<string>, mode: TextMode)
    ensures Aligned(aw, aw, mode) == Run(C, |aw|)
    ensures AlignedWords(aw, aw, mode) == aw
  {
    var T := Table(aw, aw, mode);
    forall k | 0 <= k <= |aw|
      ensures T[k][k] == 0
    {
      ScoreDiagonal(aw, mode, k);
    }
    DiagonalWalk(aw, mode, T, |aw|);
    ReverseReverse(aw);
    assert aw[..|aw|] == aw;
    assert Reverse(Run(C, |aw|)) == Run(C, |aw|) by {
      ReverseRun(C, |aw|);
    }
  }

  lemma {:induction false} ReverseRun(x: Source, n: nat)
    ensures Reverse(Run(x, n)) == Run(x, n)
  {
    if n > 0 {
      ReverseRun(x, n - 1);
      assert Run(x, n)[..n - 1] == Run(x, n - 1);
      assert Run(x, n) == [x] + Run(x, n - 1);
    }
  }

  /** With no base words, the alignment is the upgraded words alone, in order. */
  lemma AlignedFromNothing(bw: seq<string>, mode: TextMode)
    ensures Aligned([], bw, mode) == Run(B, |bw|)
    ensures AlignedWords([], bw, mode) == bw
  {
    WalkAlongTop([], bw, mode, Table([], bw, mode), |bw|);
    ReverseRun(B, |bw|);
    ReverseReverse(bw);
    assert bw[..|bw|] == bw;
  }

  /** With no upgraded words, the alignment is the base words alone, in order. */
  lemma AlignedToNothing(aw: seq<string>, mode: TextMode)
    ensures Aligned(aw, [], mode) == Run(A, |aw|)
    ensures AlignedWords(aw, [], mode) == aw
  {
    WalkAlongLeft(aw, [], mode, Table(aw, [], mode), |aw|);
    ReverseRun(A, |aw|);
    ReverseReverse(aw);
    assert aw[..|aw|] == aw;
  }

  /** A fitting script tags each base word once as `A` or `C`, and each upgraded word once as `B` or `C`. */
  lemma {:induction false} FitsCounts(t: seq<Source>, i: nat, j: nat)
    requires Fits(t, i, j)
    ensures multiset(t)[A] + multiset(t)[C] == i
    ensures multiset(t)[B] + multiset(t)[C] == j
    decreases |t|
  {
    if t != [] {
      FitsCounts(t[1..], PrevA(t[0], i), PrevB(t[0], j));
      assert t == [t[0]] + t[1..];
      assert multiset(t) == multiset([t[0]]) + multiset(t[1..]);
    }
  }

  lemma {:induction false} ReverseMultiset<T>(s: seq<T>)
    ensures multiset(Reverse(s)) == multiset(s)
    decreases |s|
  {
    if s != [] {
      var s' := s[..|s| - 1];
      ReverseMultiset(s');
      assert s == s' + [s[|s| - 1]];
    }
  }

  /**
   * The alignment uses every word exactly once: the `A` and `C` tags count
   * the base words and the `B` and `C` tags count the upgraded words.
   */
  lemma AlignedCounts(aw: seq<string>, bw: seq<string>, mode: TextMode)
    ensures multiset(Aligned(aw, bw, mode))[A] + multiset(Aligned(aw, bw, mode))[C] == |aw|
    ensures multiset(Aligned(aw, bw, mode))[B] + multiset(Aligned(aw, bw, mode))[C] == |bw|
  {
    var W := Walk(aw, bw, mode, Table(aw, bw, mode), |aw|, |bw|);
    WalkFits(aw, bw, mode, Table(aw, bw, mode), |aw|, |bw|);
    FitsCounts(W, |aw|, |bw|);
    ReverseMultiset(W);
  }
}
