/** The grouped program-id map of the tiled GEMM: one linear id, one 2-D tile. */
module PidGrid {

  import opened Arithmetic

  // ---------------------------------------------------------------------
  // The map and its inverse
  // ---------------------------------------------------------------------

  /** Rows of tiles in the group whose first row is `first`. */
  function GroupRows(first: nat, tilesM: nat, group: nat): int {
    Min(tilesM - first, group)
  }

  /** The group of a launched program has at least one row, and the program's
    * offset `r` into the group is within the group's tiles. */
  lemma GroupIsInhabited(pid: nat, tilesM: nat, tilesN: nat, group: nat) returns (first: nat, rows: nat, c: nat, r: nat)
    requires group > 0 && pid < tilesM * tilesN
    ensures group * tilesN > 0
    ensures first == pid / (group * tilesN) * group && r == pid % (group * tilesN) && c == first * tilesN
    ensures first < tilesM && rows == GroupRows(first, tilesM, group) > 0
    ensures pid == c + r && r < rows * tilesN
  {
    PositiveProduct(tilesM, tilesN);
    PositiveProduct(group, tilesN);
    var width := group * tilesN;
    var g := pid / width;
    first, r := g * group, pid % width;
    c := first * tilesN;
    MulAssociates(g, group, tilesN);
    FactorLess(first, tilesM, tilesN);
    rows := GroupRows(first, tilesM, group);
    MulSubtracts(tilesM, first, tilesN);
  }

  lemma GroupIsNonEmpty(pid: nat, tilesM: nat, tilesN: nat, group: nat)
    requires group > 0 && pid < tilesM * tilesN
    ensures group * tilesN > 0
    ensures pid / (group * tilesN) * group >= 0
    ensures GroupRows(pid / (group * tilesN) * group, tilesM, group) > 0
  {
    var first, rows, c, r := GroupIsInhabited(pid, tilesM, tilesN, group);
  }

  /** The kernel's own arithmetic on its program id. */
  function TileOf(pid: nat, tilesM: nat, tilesN: nat, group: nat): (tile: (int, int))
    requires group > 0 && pid < tilesM * tilesN
  {
    GroupIsNonEmpty(pid, tilesM, tilesN, group);
    var numPidInGroup := group * tilesN;
    var groupId := pid / numPidInGroup;
    var firstPidM := groupId * group;
    var groupSizeM := GroupRows(firstPidM, tilesM, group);
    (firstPidM + pid % groupSizeM, pid % numPidInGroup / groupSizeM)
  }

  /** The tile of a launched program is in the grid. */
  lemma TileIsInGrid(pid: nat, tilesM: nat, tilesN: nat, group: nat)
    requires group > 0 && pid < tilesM * tilesN
    ensures 0 <= TileOf(pid, tilesM, tilesN, group).0 < tilesM
    ensures 0 <= TileOf(pid, tilesM, tilesN, group).1 < tilesN
  {
    var first, rows, c, r := GroupIsInhabited(pid, tilesM, tilesN, group);
    QuotientBelow(r, rows, tilesN);
  }

  /** The program that computes a tile. In a partial last group the rows are visited
    * in rotated order, because the residue is taken of the whole id. */
  function PidOf(m: nat, n: nat, tilesM: nat, tilesN: nat, group: nat): int
    requires group > 0 && m < tilesM
  {
    var first := m / group * group;
    var rows := GroupRows(first, tilesM, group);
    assert first <= m;
    first * tilesN + n * rows + (m - first - first * tilesN) % rows
  }

  /** Within a group: row `x` and column `n` give the offset `r`, and come back. */
  lemma OffsetRoundTrip(c: int, rows: int, x: int, n: nat, r: int)
    requires 0 <= x < rows && r == n * rows + (x - c) % rows
    ensures r / rows == n && (c + r) % rows == x && 0 <= r < (n + 1) * rows
  {
    var u := (x - c) % rows;
    DivModUnique(n, rows, u);
    ModDropsMultiples(c + u, n, rows);
    ModAdds(x - c, c, rows);
    DivModUnique(0, rows, x);
    MulMonotone(0, n, rows);
  }

  /** The other way: offset `r` gives row and column, and comes back. */
  lemma RowRoundTrip(c: int, rows: int, r: nat)
    requires rows > 0
    ensures r / rows * rows + ((c + r) % rows - c) % rows == r
  {
    var x := (c + r) % rows;
    ModAdds(c + r, -c, rows);
    assert -c + x == x - c && -c + (c + r) == r;
  }

  lemma PidIsLaunched(m: nat, n: nat, tilesM: nat, tilesN: nat, group: nat)
      returns (first: nat, rows: nat, c: nat, r: nat)
    requires group > 0 && m < tilesM && n < tilesN
    ensures first == m / group * group && rows == GroupRows(first, tilesM, group) > 0 && c == first * tilesN
    ensures 0 <= m - first < rows
    ensures r == n * rows + (m - first - c) % rows && PidOf(m, n, tilesM, tilesN, group) == c + r < tilesM * tilesN
    ensures group * tilesN > 0
    ensures (c + r) / (group * tilesN) * group == first && (c + r) % (group * tilesN) == r
  {
    first := FirstRow(m, group);
    rows := GroupRows(first, tilesM, group);
    c := first * tilesN;
    OffsetRoundTrip(c, rows, m - first, n, n * rows + (m - first - c) % rows);
    r := n * rows + (m - first - c) % rows;
    OffsetIsInGroup(tilesM, tilesN, group, first, rows, n, r);
    PositiveProduct(group, tilesN);
    GroupOfOffset(m / group, group, tilesN, r);
  }

  lemma FirstRow(m: nat, group: nat) returns (first: nat)
    requires group > 0
    ensures first == m / group * group && first <= m < first + group
  {
    first := m / group * group;
    assert m == first + m % group;
  }

  lemma GroupOfOffset(g: nat, group: nat, tilesN: nat, r: nat)
    requires group > 0 && r < group * tilesN
    ensures ((g * group) * tilesN + r) / (group * tilesN) == g
    ensures ((g * group) * tilesN + r) % (group * tilesN) == r
  {
    MulAssociates(g, group, tilesN);
    DivModUnique(g, group * tilesN, r);
  }

  /** An offset below `(n + 1) * rows` stays inside the group and inside the grid. */
  lemma OffsetIsInGroup(tilesM: nat, tilesN: nat, group: nat, first: nat, rows: int, n: nat, r: int)
    requires first < tilesM && group > 0 && rows == GroupRows(first, tilesM, group)
    requires n < tilesN && r < (n + 1) * rows
    ensures r < group * tilesN
    ensures first * tilesN + r < tilesM * tilesN
  {
    MulMonotone(n + 1, tilesN, rows);
    MulMonotone(rows, group, tilesN);
    MulMonotone(rows, tilesM - first, tilesN);
    MulSubtracts(tilesM, first, tilesN);
  }

  lemma TileFromOffset(pid: nat, tilesM: nat, tilesN: nat, group: nat, first: nat, rows: int, r: nat)
    requires group > 0 && pid < tilesM * tilesN && group * tilesN > 0
    requires first == pid / (group * tilesN) * group && rows == GroupRows(first, tilesM, group) > 0
    requires r == pid % (group * tilesN)
    ensures TileOf(pid, tilesM, tilesN, group) == (first + pid % rows, r / rows)
  {
  }

  /** Every tile is computed by the program `PidOf` names. */
  lemma TileOfPid(m: nat, n: nat, tilesM: nat, tilesN: nat, group: nat)
    requires group > 0 && m < tilesM && n < tilesN
    ensures 0 <= PidOf(m, n, tilesM, tilesN, group) < tilesM * tilesN
    ensures TileOf(PidOf(m, n, tilesM, tilesN, group), tilesM, tilesN, group) == (m, n)
  {
    var first, rows, c, r := PidIsLaunched(m, n, tilesM, tilesN, group);
    TileFromOffset(c + r, tilesM, tilesN, group, first, rows, r);
    OffsetRoundTrip(c, rows, m - first, n, r);
  }

  lemma PidFromTile(m: nat, n: nat, tilesM: nat, tilesN: nat, group: nat, first: nat, rows: int, c: int)
    requires group > 0 && m < tilesM && m / group * group == first
    requires rows == GroupRows(first, tilesM, group) > 0 && c == first * tilesN
    ensures PidOf(m, n, tilesM, tilesN, group) == c + n * rows + (m - first - c) % rows
  {
  }

  /** A program is the one its tile names: no two programs share a tile. */
  lemma PidOfTile(pid: nat, tilesM: nat, tilesN: nat, group: nat)
    requires group > 0 && pid < tilesM * tilesN
    ensures 0 <= TileOf(pid, tilesM, tilesN, group).0 < tilesM
    ensures 0 <= TileOf(pid, tilesM, tilesN, group).1 < tilesN
    ensures var tile := TileOf(pid, tilesM, tilesN, group);
      PidOf(tile.0, tile.1, tilesM, tilesN, group) == pid
  {
    TileIsInGrid(pid, tilesM, tilesN, group);
    var first, rows, c, r := GroupIsInhabited(pid, tilesM, tilesN, group);
    TileFromOffset(pid, tilesM, tilesN, group, first, rows, r);
    var (m, n) := TileOf(pid, tilesM, tilesN, group);
    DivModUnique(pid / (group * tilesN), group, pid % rows);
    PidFromTile(m, n, tilesM, tilesN, group, first, rows, c);
    RowRoundTrip(c, rows, r);
  }

  /** The grid map is one-to-one and onto: each tile has exactly one program. */
  lemma ExactlyOneProgramPerTile(m: nat, n: nat, tilesM: nat, tilesN: nat, group: nat, pid: nat)
    requires group > 0 && m < tilesM && n < tilesN && pid < tilesM * tilesN
    ensures TileOf(pid, tilesM, tilesN, group) == (m, n) <==> pid == PidOf(m, n, tilesM, tilesN, group)
  {
    TileOfPid(m, n, tilesM, tilesN, group);
    PidOfTile(pid, tilesM, tilesN, group);
  }

  /** Programs that follow one another share a group of rows: the groups' programs are
    * consecutive, and within a group columns come one after the other. */
  lemma GroupsStayTogether(pid: nat, tilesM: nat, tilesN: nat, group: nat)
    requires group > 0 && pid < tilesM * tilesN
    ensures group * tilesN > 0
    ensures TileOf(pid, tilesM, tilesN, group).0 / group == pid / (group * tilesN)
    ensures pid + 1 < tilesM * tilesN && pid / (group * tilesN) == (pid + 1) / (group * tilesN) ==>
              TileOf(pid, tilesM, tilesN, group).1 <= TileOf(pid + 1, tilesM, tilesN, group).1
              <= TileOf(pid, tilesM, tilesN, group).1 + 1
  {
    RowIsInItsGroup(pid, tilesM, tilesN, group);
    if pid + 1 < tilesM * tilesN && pid / (group * tilesN) == (pid + 1) / (group * tilesN) {
      ColumnsFollow(pid, tilesM, tilesN, group);
    }
  }

  lemma RowIsInItsGroup(pid: nat, tilesM: nat, tilesN: nat, group: nat)
    requires group > 0 && pid < tilesM * tilesN
    ensures group * tilesN > 0
    ensures TileOf(pid, tilesM, tilesN, group).0 / group == pid / (group * tilesN)
  {
    var first, rows, c, r := GroupIsInhabited(pid, tilesM, tilesN, group);
    TileFromOffset(pid, tilesM, tilesN, group, first, rows, r);
    DivModUnique(pid / (group * tilesN), group, pid % rows);
  }

  lemma ColumnsFollow(pid: nat, tilesM: nat, tilesN: nat, group: nat)
    requires group > 0 && pid + 1 < tilesM * tilesN && group * tilesN > 0
    requires pid / (group * tilesN) == (pid + 1) / (group * tilesN)
    ensures TileOf(pid, tilesM, tilesN, group).1 <= TileOf(pid + 1, tilesM, tilesN, group).1
         <= TileOf(pid, tilesM, tilesN, group).1 + 1
  {
    var first, rows, c, r := GroupIsInhabited(pid, tilesM, tilesN, group);
    var first', rows', c', r' := GroupIsInhabited(pid + 1, tilesM, tilesN, group);
    TileFromOffset(pid, tilesM, tilesN, group, first, rows, r);
    TileFromOffset(pid + 1, tilesM, tilesN, group, first', rows', r');
    NextQuotient(r, rows);
  }

  lemma NextQuotient(r: nat, rows: nat)
    requires rows > 0
    ensures r / rows <= (r + 1) / rows <= r / rows + 1
  {
    var q, m := r / rows, r % rows;
    assert r == q * rows + m;
    if m + 1 < rows {
      DivModUnique(q, rows, m + 1);
    } else {
      assert (q + 1) * rows == q * rows + rows;
      DivModUnique(q + 1, rows, 0);
    }
  }
}
