/** The paged pool's position-to-row table: both layouts give every live position a
  * row of its own, inside the capacity the pool was sized to.
  */
module RowTable {
  import opened Arithmetic
  import opened Common

  function Total(lens: seq<nat>): nat {
    if lens == [] then 0 else Total(Front(lens)) + Last(lens)
  }

  /** The table's width: the longest sequence. */
  function Longest(lens: seq<nat>): (width: nat)
    requires lens != []
    ensures width in lens && forall i :: 0 <= i < |lens| ==> lens[i] <= width
  {
    if |lens| == 1 then lens[0]
    else
      assert lens == Front(lens) + [Last(lens)];
      Max(Longest(Front(lens)), Last(lens))
  }

  /** Tokens of the sequences before `i`: where its slice of the permutation starts. */
  function Offset(lens: seq<nat>, i: nat): nat
    requires i <= |lens|
  {
    Total(lens[..i])
  }

  ghost function PositionsOf(i: int, n: nat): set<(int, int)> {
    set p | 0 <= p < n :: (i, p)
  }

  ghost function Positions(lens: seq<nat>): set<(int, int)> {
    set i, p | 0 <= i < |lens| && 0 <= p < lens[i] :: (i, p)
  }

  lemma {:induction false} PositionsOfSize(i: int, n: nat)
    ensures |PositionsOf(i, n)| == n
  {
    if n == 0 {
      assert PositionsOf(i, n) == {};
    } else {
      PositionsOfSize(i, n - 1);
      assert PositionsOf(i, n) == PositionsOf(i, n - 1) + {(i, n - 1)};
    }
  }

  /** The token total counts the positions of all sequences. */
  lemma {:induction false} TotalCountsPositions(lens: seq<nat>)
    ensures Total(lens) == |set i, p | 0 <= i < |lens| && 0 <= p < lens[i] :: (i, p)|
  {
    assert (set i, p | 0 <= i < |lens| && 0 <= p < lens[i] :: (i, p)) == Positions(lens);
    if lens == [] {
      assert Positions(lens) == {};
    } else {
      var n := |lens| - 1;
      TotalCountsPositions(Front(lens));
      assert (set i, p | 0 <= i < |Front(lens)| && 0 <= p < Front(lens)[i] :: (i, p)) == Positions(Front(lens));
      PositionsOfSize(n, Last(lens));
      assert Positions(lens) == Positions(Front(lens)) + PositionsOf(n, Last(lens));
      assert Positions(Front(lens)) !! PositionsOf(n, Last(lens));
    }
  }

  lemma {:induction false} TotalFitsSpan(lens: seq<nat>, width: nat)
    requires forall i :: 0 <= i < |lens| ==> lens[i] <= width
    ensures Total(lens) <= |lens| * width
  {
    if lens != [] {
      TotalFitsSpan(Front(lens), width);
      assert |lens| * width == (|lens| - 1) * width + width;
    }
  }

  lemma OffsetStep(lens: seq<nat>, i: nat)
    requires i < |lens|
    ensures Offset(lens, i + 1) == Offset(lens, i) + lens[i]
  {
    assert Front(lens[..i + 1]) == lens[..i];
  }

  lemma {:induction false} OffsetsGrow(lens: seq<nat>, i: nat, j: nat)
    requires i <= j <= |lens|
    ensures Offset(lens, i) <= Offset(lens, j)
  {
    if i < j {
      OffsetStep(lens, j - 1);
      OffsetsGrow(lens, i, j - 1);
    }
  }

  // ---------------------------------------------------------------------
  // Capacity
  // ---------------------------------------------------------------------

  datatype PoolError = NoSequences | LaunchBound(rows: nat)

  /** Pool rows: a default raised to the floor, an explicit capacity refused below it;
    * both at least one full-width span per sequence. */
  function PoolRows(lens: seq<nat>, capacity: Option<nat>, floorRows: nat): Result<nat, PoolError> {
    if lens == [] then Err(NoSequences)
    else
      var span := |lens| * Longest(lens);
      match capacity
      case None => Ok(Max(Max(4 * Total(lens), span), floorRows))
      case Some(c) => var rows := Max(c, span); if rows < floorRows then Err(LaunchBound(rows)) else Ok(rows)
  }

  /** Whatever was asked for, the pool places every sequence, in either layout. */
  lemma PoolHoldsEverySequence(lens: seq<nat>, capacity: Option<nat>, floorRows: nat)
    requires PoolRows(lens, capacity, floorRows).Ok?
    ensures lens != [] && PoolRows(lens, capacity, floorRows).value >= |lens| * Longest(lens) >= Total(lens)
  {
    TotalFitsSpan(lens, Longest(lens));
  }

  /** The pool is refused exactly for want of a sequence, or for an explicit capacity
    * below the floor where the span is below it too. */
  lemma PoolIsRefusedExactly(lens: seq<nat>, capacity: Option<nat>, floorRows: nat)
    ensures PoolRows(lens, capacity, floorRows) == Err(NoSequences) <==> lens == []
    ensures PoolRows(lens, capacity, floorRows).Err? && lens != [] <==>
            lens != [] && capacity.Some? && capacity.value < floorRows && |lens| * Longest(lens) < floorRows
    ensures forall rows: nat :: PoolRows(lens, capacity, floorRows) == Err(LaunchBound(rows)) ==>
              rows >= capacity.value && rows >= |lens| * Longest(lens)
              && (rows == capacity.value || rows == |lens| * Longest(lens))
  {
  }

  /** `rows` is the least number that is enough for all of `a`, `b` and `c`. */
  predicate IsLeastAbove(rows: int, a: int, b: int, c: int) {
    && rows >= a && rows >= b && rows >= c
    && (rows == a || rows == b || rows == c)
  }

  /** A default pool is the least one for four times the tokens, the span and the floor;
    * an explicit one is never exceeded beyond the span. */
  lemma PoolIsAsSmallAsItMayBe(lens: seq<nat>, capacity: Option<nat>, floorRows: nat)
    requires PoolRows(lens, capacity, floorRows).Ok?
    ensures var rows, span := PoolRows(lens, capacity, floorRows).value, |lens| * Longest(lens);
      match capacity
      case None => IsLeastAbove(rows, 4 * Total(lens), span, floorRows)
      case Some(c) => IsLeastAbove(rows, c, span, span) && floorRows <= rows
  {
  }

  // ---------------------------------------------------------------------
  // The table
  // ---------------------------------------------------------------------

  predicate IsPermutation(perm: seq<nat>) {
    && (forall i :: 0 <= i < |perm| ==> perm[i] < |perm|)
    && (forall i, j :: 0 <= i < j < |perm| ==> perm[i] != perm[j])
  }

  /** Position `p` of sequence `i` is one the sequence has. */
  predicate Live(lens: seq<nat>, i: nat, p: nat) {
    i < |lens| && p < lens[i]
  }

  lemma SliceInBounds(lens: seq<nat>, i: nat, p: nat)
    requires Live(lens, i, p)
    ensures Offset(lens, i) + p < Offset(lens, i + 1) <= Total(lens)
  {
    OffsetStep(lens, i);
    OffsetsGrow(lens, i + 1, |lens|);
    assert lens[..|lens|] == lens;
  }

  /** The pool row of a live position. */
  function RowOf(lens: seq<nat>, fragmented: bool, perm: seq<nat>, i: nat, p: nat): nat
    requires Live(lens, i, p) && (fragmented ==> Total(lens) <= |perm|)
  {
    SliceInBounds(lens, i, p);
    if fragmented then perm[Offset(lens, i) + p] else At(i, p, Longest(lens))
  }

  lemma SlicesAreDisjoint(lens: seq<nat>, i: nat, p: nat, j: nat, q: nat)
    requires Live(lens, i, p) && Live(lens, j, q) && Offset(lens, i) + p == Offset(lens, j) + q
    ensures i == j && p == q
  {
    OffsetStep(lens, i);
    OffsetStep(lens, j);
    if i < j {
      OffsetsGrow(lens, i + 1, j);
    } else if j < i {
      OffsetsGrow(lens, j + 1, i);
    }
  }

  /** Two live positions never alias a row, and every row is within the pool. */
  lemma LiveRowsAreDistinct(lens: seq<nat>, fragmented: bool, perm: seq<nat>, i: nat, p: nat, j: nat, q: nat)
    requires Live(lens, i, p) && Live(lens, j, q)
    requires IsPermutation(perm) && |lens| * Longest(lens) <= |perm| && Total(lens) <= |perm|
    ensures RowOf(lens, fragmented, perm, i, p) < |perm|
    ensures RowOf(lens, fragmented, perm, i, p) == RowOf(lens, fragmented, perm, j, q) ==> i == j && p == q
  {
    SliceInBounds(lens, i, p);
    SliceInBounds(lens, j, q);
    if fragmented {
      var x, y := Offset(lens, i) + p, Offset(lens, j) + q;
      if x == y {
        SlicesAreDisjoint(lens, i, p, j, q);
      } else {
        assert perm[x] != perm[y] by {
          if x < y { assert perm[x] != perm[y]; } else { assert perm[y] != perm[x]; }
        }
      }
    } else {
      AtInBounds(i, p, |lens|, Longest(lens));
      AtRoundTrip(i, p, Longest(lens));
      AtRoundTrip(j, q, Longest(lens));
    }
  }

  /** Each live entry is its position's row, the rest zero. */
  ghost predicate HoldsRows(table: array2<nat>, lens: seq<nat>, fragmented: bool, perm: seq<nat>)
    requires lens != [] && Total(lens) <= |perm| && table.Length0 == |lens| && table.Length1 == Longest(lens)
    reads table
  {
    forall i, p {:trigger table[i, p]} :: 0 <= i < |lens| && 0 <= p < Longest(lens) ==>
      table[i, p] == if Live(lens, i, p) then RowOf(lens, fragmented, perm, i, p) else 0
  }

  /** Fill row `i`'s first `lens[i]` columns; the rest stay zero. The fragmented layout
    * carves one permutation into consecutive slices with a running offset. */
  method BuildRowTable(lens: seq<nat>, fragmented: bool, perm: seq<nat>) returns (table: array2<nat>)
    requires lens != [] && Total(lens) <= |perm|
    ensures fresh(table) && table.Length0 == |lens| && table.Length1 == Longest(lens)
    ensures HoldsRows(table, lens, fragmented, perm)
  {
    var width := Longest(lens);
    table := new nat[|lens|, width]((i, p) => 0);
    var offset := 0;
    for i := 0 to |lens|
      invariant offset == Offset(lens, i)
      invariant forall k, p {:trigger table[k, p]} :: 0 <= k < |lens| && 0 <= p < width ==>
                  table[k, p] == if k < i && Live(lens, k, p) then RowOf(lens, fragmented, perm, k, p) else 0
    {
      for p := 0 to lens[i]
        invariant forall k, p' {:trigger table[k, p']} :: 0 <= k < |lens| && 0 <= p' < width ==>
                    table[k, p'] == if (k < i && Live(lens, k, p')) || (k == i && p' < p)
                                    then RowOf(lens, fragmented, perm, k, p') else 0
      {
        RowFollowsTheLayout(lens, fragmented, perm, i, p);
        var row := if fragmented then perm[offset + p] else i * width + p;
        assert row == RowOf(lens, fragmented, perm, i, p);
        table[i, p] := row;
      }
      OffsetStep(lens, i);
      offset := offset + lens[i];
    }
  }

  /** The table of a pool of `rows` rows: live entries are distinct rows of the pool,
    * the rest zero. */
  ghost predicate IsPaged(table: array2<nat>, lens: seq<nat>, rows: nat)
    reads table
  {
    && lens != [] && table.Length0 == |lens| && table.Length1 == Longest(lens)
    && (forall i, p {:trigger table[i, p]} :: 0 <= i < |lens| && 0 <= p < Longest(lens) ==>
          if Live(lens, i, p) then table[i, p] < rows else table[i, p] == 0)
    && (forall i, p, j, q {:trigger table[i, p], table[j, q]} ::
          0 <= i < |lens| && 0 <= p < Longest(lens) && 0 <= j < |lens| && 0 <= q < Longest(lens)
          && Live(lens, i, p) && Live(lens, j, q) && table[i, p] == table[j, q] ==>
            (i == j && p == q))
  }

  /** Position `p` of sequence `i` is row `i * width + p`. */
  ghost predicate IsContiguous(table: array2<nat>, lens: seq<nat>)
    requires table.Length0 == |lens|
    reads table
  {
    forall i, p {:trigger table[i, p]} :: 0 <= i < |lens| && 0 <= p < lens[i] && p < table.Length1 ==>
      table[i, p] == i * table.Length1 + p
  }

  /** The sequences take their rows off the permutation one after the other. */
  ghost predicate FollowsPermutation(table: array2<nat>, lens: seq<nat>, perm: seq<nat>)
    requires table.Length0 == |lens|
    reads table
  {
    forall i, p {:trigger table[i, p]} :: 0 <= i < |lens| && 0 <= p < lens[i] && p < table.Length1 ==>
      Offset(lens, i) + p < |perm| && table[i, p] == perm[Offset(lens, i) + p]
  }

  lemma RowsAreDistinct(table: array2<nat>, lens: seq<nat>, fragmented: bool, perm: seq<nat>)
    requires lens != [] && Total(lens) <= |perm| && table.Length0 == |lens| && table.Length1 == Longest(lens)
    requires HoldsRows(table, lens, fragmented, perm)
    requires IsPermutation(perm) && |lens| * Longest(lens) <= |perm|
    ensures IsPaged(table, lens, |perm|)
  {
    forall i, p, j, q {:trigger table[i, p], table[j, q]} |
      0 <= i < |lens| && 0 <= p < Longest(lens) && 0 <= j < |lens| && 0 <= q < Longest(lens)
      && Live(lens, i, p) && Live(lens, j, q)
      ensures table[i, p] < |perm| && (table[i, p] == table[j, q] ==> i == j && p == q)
    {
      LiveRowsAreDistinct(lens, fragmented, perm, i, p, j, q);
    }
  }

  lemma RowFollowsTheLayout(lens: seq<nat>, fragmented: bool, perm: seq<nat>, i: nat, p: nat)
    requires Live(lens, i, p) && Total(lens) <= |perm|
    ensures lens != [] && p < Longest(lens) && Offset(lens, i) + p < |perm|
    ensures RowOf(lens, fragmented, perm, i, p) == if fragmented then perm[Offset(lens, i) + p] else i * Longest(lens) + p
  {
    SliceInBounds(lens, i, p);
  }

  lemma RowsFollowTheLayout(table: array2<nat>, lens: seq<nat>, fragmented: bool, perm: seq<nat>)
    requires lens != [] && Total(lens) <= |perm| && table.Length0 == |lens| && table.Length1 == Longest(lens)
    requires HoldsRows(table, lens, fragmented, perm)
    ensures fragmented ==> FollowsPermutation(table, lens, perm)
    ensures !fragmented ==> IsContiguous(table, lens)
  {
    forall i: nat, p: nat {:trigger Live(lens, i, p)} | Live(lens, i, p)
      ensures p < Longest(lens) && Offset(lens, i) + p < |perm|
      ensures table[i, p] == if fragmented then perm[Offset(lens, i) + p] else i * table.Length1 + p
    {
      RowFollowsTheLayout(lens, fragmented, perm, i, p);
    }
    if fragmented {
      forall i, p {:trigger table[i, p]} | 0 <= i < |lens| && 0 <= p < lens[i] && p < table.Length1
        ensures Offset(lens, i) + p < |perm| && table[i, p] == perm[Offset(lens, i) + p]
      {
        assert Live(lens, i, p);
      }
    } else {
      forall i, p {:trigger table[i, p]} | 0 <= i < |lens| && 0 <= p < lens[i] && p < table.Length1
        ensures table[i, p] == i * table.Length1 + p
      {
        assert Live(lens, i, p);
      }
    }
  }

  /** Size the pool, then build its table: distinct live rows inside the pool. */
  method PagedTable(lens: seq<nat>, capacity: Option<nat>, floorRows: nat, fragmented: bool, randperm: nat -> seq<nat>)
    returns (r: Result<(nat, array2<nat>), PoolError>)
    requires forall n :: |randperm(n)| == n && IsPermutation(randperm(n))
    ensures r == Err(NoSequences) <==> lens == []
    ensures r.Err? && lens != [] <==>
            lens != [] && capacity.Some? && capacity.value < floorRows && |lens| * Longest(lens) < floorRows
    ensures r.Ok? && capacity.None? ==> IsLeastAbove(r.value.0, 4 * Total(lens), |lens| * Longest(lens), floorRows)
    ensures r.Ok? && capacity.Some? ==>
              IsLeastAbove(r.value.0, capacity.value, |lens| * Longest(lens), |lens| * Longest(lens))
    ensures r.Err? ==> PoolRows(lens, capacity, floorRows) == Err(r.error)
    ensures r.Ok? ==> PoolRows(lens, capacity, floorRows) == Ok(r.value.0)
    ensures r.Ok? ==> IsPaged(r.value.1, lens, r.value.0)
    ensures r.Ok? && !fragmented ==> IsContiguous(r.value.1, lens)
    ensures r.Ok? && fragmented ==> FollowsPermutation(r.value.1, lens, randperm(r.value.0))
  {
    var sized := PoolRows(lens, capacity, floorRows);
    PoolIsRefusedExactly(lens, capacity, floorRows);
    if sized.Err? {
      return Err(sized.error);
    }
    PoolHoldsEverySequence(lens, capacity, floorRows);
    PoolIsAsSmallAsItMayBe(lens, capacity, floorRows);
    var rows := sized.value;
    var perm := randperm(rows);
    var table := BuildRowTable(lens, fragmented, perm);
    RowsAreDistinct(table, lens, fragmented, perm);
    RowsFollowTheLayout(table, lens, fragmented, perm);
    r := Ok((rows, table));
  }
}
