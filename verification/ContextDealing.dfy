/** Dealing positions round-robin over context-parallel ranks, and the table that
  * maps a rank's own positions to its cache rows.
  */
module ContextDealing {
  import opened Arithmetic

  /** How many of `context` positions the formula gives to `rank`. */
  function LocalCount(context: nat, rank: nat, dcp: nat): int
    requires rank < dcp
  {
    (context - rank + dcp - 1) / dcp
  }

  /** The positions `p < context` with `p % dcp == rank`, counted. */
  function OwnedCount(context: nat, rank: nat, dcp: nat): nat
    requires rank < dcp
  {
    if context == 0 then 0
    else OwnedCount(context - 1, rank, dcp) + (if (context - 1) % dcp == rank then 1 else 0)
  }

  lemma {:induction false} OwnedCountIsCardinality(context: nat, rank: nat, dcp: nat)
    requires rank < dcp
    ensures OwnedCount(context, rank, dcp) == |set p | 0 <= p < context && p % dcp == rank|
  {
    var owned := set p | 0 <= p < context && p % dcp == rank;
    if context == 0 {
      assert owned == {};
    } else {
      OwnedCountIsCardinality(context - 1, rank, dcp);
      var before := set p | 0 <= p < context - 1 && p % dcp == rank;
      if (context - 1) % dcp == rank {
        assert owned == before + {context - 1};
      } else {
        assert owned == before;
      }
    }
  }

  /** Whole rounds, plus one for a rank the last partial round reaches. */
  lemma LocalCountByRounds(context: nat, rank: nat, dcp: nat, q: nat, r: nat)
    requires rank < dcp && r < dcp && context == q * dcp + r
    ensures context / dcp == q && context % dcp == r
    ensures LocalCount(context, rank, dcp) == q + (if r > rank then 1 else 0)
  {
    DivModUnique(q, dcp, r);
    if r > rank {
      assert (q + 1) * dcp == q * dcp + dcp;
      DivModUnique(q + 1, dcp, r - rank - 1);
    } else {
      DivModUnique(q, dcp, r - rank + dcp - 1);
    }
  }

  /** One more position is the rank's exactly when its remainder is the rank. */
  lemma LocalCountStep(context: nat, rank: nat, dcp: nat, q: nat, r: nat)
    requires rank < dcp && r < dcp && context == q * dcp + r
    ensures LocalCount(context + 1, rank, dcp) == LocalCount(context, rank, dcp) + (if r == rank then 1 else 0)
  {
    LocalCountByRounds(context, rank, dcp, q, r);
    if r + 1 < dcp {
      LocalCountByRounds(context + 1, rank, dcp, q, r + 1);
    } else {
      NextRound(q, dcp);
      LocalCountByRounds(context + 1, rank, dcp, q + 1, 0);
    }
  }

  lemma NextRound(q: nat, dcp: nat)
    ensures (q + 1) * dcp == q * dcp + dcp
  {
  }

  lemma Rounds(context: nat, dcp: nat)
    requires dcp > 0
    ensures 0 <= context / dcp && 0 <= context % dcp < dcp
    ensures context == context / dcp * dcp + context % dcp
  {
  }

  /** The formula counts exactly the rank's positions. */
  lemma {:induction false} LocalCountIsOwned(context: nat, rank: nat, dcp: nat)
    requires rank < dcp
    ensures LocalCount(context, rank, dcp) == OwnedCount(context, rank, dcp)
  {
    if context == 0 {
      LocalCountByRounds(0, rank, dcp, 0, 0);
    } else {
      LocalCountIsOwned(context - 1, rank, dcp);
      Rounds(context - 1, dcp);
      LocalCountStep(context - 1, rank, dcp, (context - 1) / dcp, (context - 1) % dcp);
    }
  }

  function SharesBelow(context: nat, dcp: nat, k: nat): int
    requires k <= dcp
  {
    if k == 0 then 0 else SharesBelow(context, dcp, k - 1) + LocalCount(context, k - 1, dcp)
  }

  lemma {:induction false} SharesBelowByRounds(context: nat, dcp: nat, k: nat, q: nat, r: nat)
    requires k <= dcp && r < dcp && context == q * dcp + r
    ensures SharesBelow(context, dcp, k) == k * q + Min(k, r)
  {
    if k > 0 {
      SharesBelowByRounds(context, dcp, k - 1, q, r);
      LocalCountByRounds(context, k - 1, dcp, q, r);
      assert k * q == (k - 1) * q + q;
    }
  }

  /** The ranks' shares add up to the whole context. */
  lemma SharesPartitionContext(context: nat, dcp: nat)
    requires dcp > 0
    ensures SharesBelow(context, dcp, dcp) == context
  {
    SharesBelowByRounds(context, dcp, dcp, context / dcp, context % dcp);
  }

  /** No rank has more than one position more than another, and lower ranks no fewer. */
  lemma SharesAreBalanced(context: nat, dcp: nat, rank1: nat, rank2: nat)
    requires rank1 <= rank2 < dcp
    ensures 0 <= LocalCount(context, rank1, dcp) - LocalCount(context, rank2, dcp) <= 1
  {
    LocalCountByRounds(context, rank1, dcp, context / dcp, context % dcp);
    LocalCountByRounds(context, rank2, dcp, context / dcp, context % dcp);
  }

  // ---------------------------------------------------------------------
  // The table
  // ---------------------------------------------------------------------

  /** What the table holds: own columns point at consecutive rows from one, the other
    * columns at row zero. */
  function Entry(b: nat, column: nat, local: nat, rank: nat, dcp: nat): nat
    requires rank < dcp
  {
    if column % dcp == rank then 1 + At(b, column / dcp, local) else 0
  }

  lemma ColumnOf(j: nat, rank: nat, dcp: nat, local: nat)
    requires rank < dcp && j < local
    ensures rank + j * dcp < local * dcp
    ensures (rank + j * dcp) % dcp == rank && (rank + j * dcp) / dcp == j
  {
    DivModUnique(j, dcp, rank);
    MulMonotone(j + 1, local, dcp);
    assert (j + 1) * dcp == j * dcp + dcp;
  }

  /** The strided view `[rank::dcp]` of `local * dcp` columns has `local` of them. */
  lemma StridedViewWidth(local: nat, rank: nat, dcp: nat)
    requires rank < dcp
    ensures LocalCount(local * dcp, rank, dcp) == local
  {
    LocalCountByRounds(local * dcp, rank, dcp, local, 0);
  }

  /** The table while the strided store is filling row `b` and has done `j` rounds. */
  function Filling(b: nat, j: nat, row: nat, column: nat, local: nat, rank: nat, dcp: nat): nat
    requires rank < dcp
  {
    if row < b || (row == b && column / dcp < j) then Entry(row, column, local, rank, dcp) else 0
  }

  lemma FillNext(b: nat, j: nat, row: nat, column: nat, local: nat, rank: nat, dcp: nat)
    requires rank < dcp && j < local
    ensures Filling(b, j + 1, row, column, local, rank, dcp)
         == if row == b && column == rank + j * dcp then 1 + At(b, j, local)
            else Filling(b, j, row, column, local, rank, dcp)
  {
    Rounds(column, dcp);
    ColumnOf(j, rank, dcp, local);
  }

  lemma FillEnds(b: nat, row: nat, column: nat, local: nat, rank: nat, dcp: nat)
    requires rank < dcp && column < local * dcp
    ensures Filling(b, local, row, column, local, rank, dcp) == Filling(b + 1, 0, row, column, local, rank, dcp)
  {
    RoundBelow(column, local, dcp);
  }

  /** Zero-filled, then overwritten through the strided view. */
  method BuildTable(batch: nat, context: nat, rank: nat, dcp: nat) returns (table: array2<nat>, local: nat)
    requires rank < dcp
    ensures local == OwnedCount(context, rank, dcp)
    ensures fresh(table) && table.Length0 == batch && table.Length1 == local * dcp
    ensures forall b, c :: 0 <= b < batch && 0 <= c < local * dcp ==> table[b, c] == Entry(b, c, local, rank, dcp)
    ensures forall b, c :: 0 <= b < batch && 0 <= c < local * dcp ==>
              table[b, c] == if c % dcp == rank then 1 + b * local + c / dcp else 0
  {
    LocalCountIsOwned(context, rank, dcp);
    local := (context - rank + dcp - 1) / dcp;
    var columns := local * dcp;
    table := new nat[batch, columns]((b, c) => 0);
    for b := 0 to batch
      invariant forall b', c :: 0 <= b' < batch && 0 <= c < columns ==>
                  table[b', c] == Filling(b, 0, b', c, local, rank, dcp)
    {
      for j := 0 to local
        invariant forall b', c :: 0 <= b' < batch && 0 <= c < columns ==>
                    table[b', c] == Filling(b, j, b', c, local, rank, dcp)
      {
        ColumnOf(j, rank, dcp, local);
        forall b', c | 0 <= b' < batch && 0 <= c < columns {
          FillNext(b, j, b', c, local, rank, dcp);
        }
        table[b, rank + j * dcp] := 1 + b * local + j;
      }
      forall b', c | 0 <= b' < batch && 0 <= c < columns {
        FillEnds(b, b', c, local, rank, dcp);
      }
    }
  }

  /** Own columns map one-to-one onto the rows 1 .. batch * local of the cache. */
  lemma EntriesAreInjective(batch: nat, local: nat, rank: nat, dcp: nat, b1: nat, c1: nat, b2: nat, c2: nat)
    requires rank < dcp && b1 < batch && b2 < batch && c1 < local * dcp && c2 < local * dcp
    requires c1 % dcp == rank && c2 % dcp == rank
    ensures 1 <= Entry(b1, c1, local, rank, dcp) <= batch * local
    ensures Entry(b1, c1, local, rank, dcp) == Entry(b2, c2, local, rank, dcp) ==> b1 == b2 && c1 == c2
  {
    RoundBelow(c1, local, dcp);
    RoundBelow(c2, local, dcp);
    AtInBounds(b1, c1 / dcp, batch, local);
    AtRoundTrip(b1, c1 / dcp, local);
    AtRoundTrip(b2, c2 / dcp, local);
    Rounds(c1, dcp);
    Rounds(c2, dcp);
  }

  lemma RoundBelow(c: nat, local: nat, dcp: nat)
    requires dcp > 0 && c < local * dcp
    ensures 0 <= c / dcp < local
  {
    assert local * dcp == dcp * local;
    QuotientBelow(c, dcp, local);
  }

  /** Every cache row but the spare row zero is some own column's row. */
  lemma EntriesAreOnto(batch: nat, local: nat, rank: nat, dcp: nat, row: nat) returns (b: nat, c: nat)
    requires rank < dcp && 1 <= row <= batch * local
    ensures b < batch && c < local * dcp && c % dcp == rank && Entry(b, c, local, rank, dcp) == row
  {
    AtOfAddress(row - 1, batch, local);
    b := (row - 1) / local;
    c := rank + (row - 1) % local * dcp;
    ColumnOf((row - 1) % local, rank, dcp, local);
  }

  /** Round `j` of a rank lies inside the context exactly when its share has a `j`th entry. */
  lemma RoundIsOwned(context: nat, rank: nat, dcp: nat, j: nat)
    requires rank < dcp
    ensures j < LocalCount(context, rank, dcp) <==> rank + j * dcp < context
  {
    var q, r := context / dcp, context % dcp;
    Rounds(context, dcp);
    LocalCountByRounds(context, rank, dcp, q, r);
    if j < q {
      MulMonotone(j + 1, q, dcp);
      NextRound(j, dcp);
    } else if j > q {
      MulMonotone(q + 1, j, dcp);
      NextRound(q, dcp);
    }
  }

  /** A rank's own positions all have a column of its table. */
  lemma OwnedPositionsAreMapped(context: nat, rank: nat, dcp: nat, p: nat)
    requires rank < dcp && p < context && p % dcp == rank
    ensures p < LocalCount(context, rank, dcp) * dcp
  {
    Rounds(p, dcp);
    RoundIsOwned(context, rank, dcp, p / dcp);
    ColumnOf(p / dcp, rank, dcp, LocalCount(context, rank, dcp));
  }
}
