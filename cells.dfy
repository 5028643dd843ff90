/** Cell positions of the 9x9 grid.  The grid is an arena of 81 cells addressed by a
    flat index i (row-major); a cell's row is i / 9, its column i % 9 and its zone
    the 3x3 block it lies in.  The grid's three views (rows, columns, zones) are
    sequences of flat indices, and a cell's observer sets (its row, column and zone
    as sets, and its peers) are sets of flat indices resolved through the arena.

    Python's `//` is floor division; for the positive divisors used here it agrees
    with Dafny's Euclidean `/`. */
module Cells {

  const Size := 9
  const CellCount := 81

  /** The value a cell holds while it is empty. */
  const Empty := -1

  /** Placeholder of a view slot that no cell has been put in yet (Python's None). */
  const NoCell := -1

  predicate IsIndex(i: int) { 0 <= i < CellCount }

  /** Every element of s is a cell index. */
  predicate AllIndices(s: seq<int>)
  {
    forall t :: 0 <= t < |s| ==> IsIndex(s[t])
  }

  function RowOf(i: int): int { i / 9 }

  function ColOf(i: int): int { i % 9 }

  /** Zone number of the cell at (row, col); zones are numbered row-major. */
  function ZoneIndex(row: int, col: int): (z: int)
    ensures 0 <= row < 9 && 0 <= col < 9 ==> 0 <= z < 9
  {
    (row / 3) * 3 + col / 3
  }

  function ZoneOf(i: int): int { ZoneIndex(RowOf(i), ColOf(i)) }

  /** The value a cell stores for an input value: 0 marks an empty cell. */
  function StoredValue(v: int): int { if v != 0 then v else Empty }

  predicate SameRow(i: int, j: int) { RowOf(i) == RowOf(j) }
  predicate SameCol(i: int, j: int) { ColOf(i) == ColOf(j) }
  predicate SameZone(i: int, j: int) { ZoneOf(i) == ZoneOf(j) }

  /** Two cells share a unit when they lie in the same row, column or zone. */
  predicate SharesUnit(i: int, j: int) { SameRow(i, j) || SameCol(i, j) || SameZone(i, j) }

  // ---------------------------------------------------------------------------
  // The three views

  datatype UnitKind = Rows | Cols | Zones

  /** The unit kinds in the order the rules scan them. */
  function KindAt(k: int): UnitKind { if k == 0 then Rows else if k == 1 then Cols else Zones }

  function RowView(r: int): (v: seq<int>)
    ensures |v| == 9 && (0 <= r < 9 ==> forall t :: 0 <= t < 9 ==> IsIndex(v[t]))
  {
    seq(9, c => r * 9 + c)
  }

  function ColView(c: int): (v: seq<int>)
    ensures |v| == 9 && (0 <= c < 9 ==> forall t :: 0 <= t < 9 ==> IsIndex(v[t]))
  {
    seq(9, r => r * 9 + c)
  }

  /** Zone k in row-major order: its top-left cell is at row 3*(k/3), column 3*(k%3). */
  function ZoneView(k: int): (v: seq<int>)
    ensures |v| == 9 && (0 <= k < 9 ==> forall t :: 0 <= t < 9 ==> IsIndex(v[t]))
  {
    seq(9, t => (3 * (k / 3) + t / 3) * 9 + 3 * (k % 3) + t % 3)
  }

  /** The g-th group of a view. */
  function Group(kind: UnitKind, g: int): (v: seq<int>)
    ensures |v| == 9 && (0 <= g < 9 ==> forall t :: 0 <= t < 9 ==> IsIndex(v[t]))
  {
    match kind
    case Rows => RowView(g)
    case Cols => ColView(g)
    case Zones => ZoneView(g)
  }

  lemma RowViewIff(r: int, j: int)
    requires 0 <= r < 9
    ensures j in RowView(r) <==> IsIndex(j) && RowOf(j) == r
  {
    if IsIndex(j) && RowOf(j) == r {
      assert RowView(r)[ColOf(j)] == j;
    }
  }

  lemma ColViewIff(c: int, j: int)
    requires 0 <= c < 9
    ensures j in ColView(c) <==> IsIndex(j) && ColOf(j) == c
  {
    if IsIndex(j) && ColOf(j) == c {
      assert ColView(c)[RowOf(j)] == j;
    }
  }

  /** The t-th cell of zone k lies in zone k. */
  lemma ZoneViewAt(k: int, t: int)
    requires 0 <= k < 9 && 0 <= t < 9
    ensures IsIndex(ZoneView(k)[t])
    ensures RowOf(ZoneView(k)[t]) == 3 * (k / 3) + t / 3
    ensures ColOf(ZoneView(k)[t]) == 3 * (k % 3) + t % 3
    ensures ZoneOf(ZoneView(k)[t]) == k
  {
    var r, c := 3 * (k / 3) + t / 3, 3 * (k % 3) + t % 3;
    assert ZoneView(k)[t] == r * 9 + c;
    assert 0 <= c < 9;
    assert (r * 9 + c) / 9 == r && (r * 9 + c) % 9 == c;
    assert r / 3 == k / 3 && c / 3 == k % 3;
  }

  /** Position of a cell inside its zone's view. */
  function ZoneSlot(j: int): int { (RowOf(j) % 3) * 3 + ColOf(j) % 3 }

  lemma ZoneSlotAt(j: int)
    requires IsIndex(j)
    ensures 0 <= ZoneSlot(j) < 9 && 0 <= ZoneOf(j) < 9
    ensures ZoneView(ZoneOf(j))[ZoneSlot(j)] == j
  {
    var r, c, k, t := RowOf(j), ColOf(j), ZoneOf(j), ZoneSlot(j);
    assert k / 3 == r / 3 && k % 3 == c / 3;
    assert t / 3 == r % 3 && t % 3 == c % 3;
    assert j == r * 9 + c;
  }

  lemma ZoneViewIff(k: int, j: int)
    requires 0 <= k < 9
    ensures j in ZoneView(k) <==> IsIndex(j) && ZoneOf(j) == k
  {
    if j in ZoneView(k) {
      var t :| 0 <= t < 9 && ZoneView(k)[t] == j;
      ZoneViewAt(k, t);
    }
    if IsIndex(j) && ZoneOf(j) == k {
      ZoneSlotAt(j);
    }
  }

  /** Each view lists its cells in increasing flat index, that is in row-major order. */
  lemma ViewsIncreasing(kind: UnitKind, g: int, s: int, t: int)
    requires 0 <= g < 9 && 0 <= s < t < 9
    ensures Group(kind, g)[s] < Group(kind, g)[t]
  {
    if kind == Zones {
      var base := (3 * (g / 3)) * 9 + 3 * (g % 3);
      var a, b, c, d := s / 3, s % 3, t / 3, t % 3;
      assert ZoneView(g)[s] == base + a * 9 + b;
      assert ZoneView(g)[t] == base + c * 9 + d;
      assert s == a * 3 + b && t == c * 3 + d;
      if a < c {
        assert a * 9 + 9 <= c * 9;
      }
    }
  }

  lemma GroupIff(kind: UnitKind, g: int, j: int)
    requires 0 <= g < 9
    ensures j in Group(kind, g) <==> IsIndex(j) && match kind
      case Rows => RowOf(j) == g
      case Cols => ColOf(j) == g
      case Zones => ZoneOf(j) == g
  {
    match kind
    case Rows => RowViewIff(g, j);
    case Cols => ColViewIff(g, j);
    case Zones => ZoneViewIff(g, j);
  }

  /** The groups of one view are pairwise disjoint, so a cell sits in one group per view. */
  lemma GroupOfCell(kind: UnitKind, i: int) returns (g: int, t: int)
    requires IsIndex(i)
    ensures 0 <= g < 9 && 0 <= t < 9 && Group(kind, g)[t] == i
  {
    match kind
    case Rows => g, t := RowOf(i), ColOf(i);
    case Cols => g, t := ColOf(i), RowOf(i);
    case Zones => ZoneSlotAt(i); g, t := ZoneOf(i), ZoneSlot(i);
  }

  // ---------------------------------------------------------------------------
  // The observer sets of a cell

  function RowSet(i: int): set<int> { set j | j in RowView(RowOf(i)) }

  function ColSet(i: int): set<int> { set j | j in ColView(ColOf(i)) }

  function ZoneSet(i: int): set<int> { set j | j in ZoneView(ZoneOf(i)) }

  lemma ObserverSetsIff(i: int, j: int)
    requires IsIndex(i)
    ensures j in RowSet(i) <==> IsIndex(j) && SameRow(i, j)
    ensures j in ColSet(i) <==> IsIndex(j) && SameCol(i, j)
    ensures j in ZoneSet(i) <==> IsIndex(j) && SameZone(i, j)
  {
    RowViewIff(RowOf(i), j);
    ColViewIff(ColOf(i), j);
    ZoneSlotAt(i);
    ZoneViewIff(ZoneOf(i), j);
  }

  /** The cells of a cell's row, column and zone, the cell itself included. */
  function UnitCells(i: int): set<int>
    requires IsIndex(i)
  {
    RowSet(i) + ColSet(i) + ZoneSet(i)
  }

  /** A cell's peers (CellObserver.related_cells): its row, column and zone sets joined,
      with the cell itself removed. */
  function Peers(i: int): set<int>
    requires IsIndex(i)
  {
    UnitCells(i) - {i}
  }

  /** The peers of a cell are exactly the other cells that share its row, column or zone. */
  lemma PeersIff(i: int)
    requires IsIndex(i)
    ensures forall j :: j in Peers(i) <==> IsIndex(j) && j != i && SharesUnit(i, j)
  {
    forall j ensures j in Peers(i) <==> IsIndex(j) && j != i && SharesUnit(i, j) {
      ObserverSetsIff(i, j);
    }
  }

  lemma PeersSymmetric(i: int, j: int)
    requires IsIndex(i) && IsIndex(j)
    ensures j in Peers(i) <==> i in Peers(j)
  {
    PeersIff(i);
    PeersIff(j);
  }

  // ---------------------------------------------------------------------------
  // Construction of the views (the loop of SudokuGrid.__init__)

  /** A view as the construction loop has filled it before reaching flat index i:
      the slots of cells already placed hold them, the others are still NoCell. */
  function Partial(v: seq<int>, i: int): seq<int>
  {
    seq(|v|, t requires 0 <= t < |v| => if v[t] < i then v[t] else NoCell)
  }

  /** Placing cell i changes only the slot of the group that holds it. */
  lemma PartialStep(kind: UnitKind, g: int, i: int)
    requires 0 <= g < 9 && IsIndex(i)
    ensures i !in Group(kind, g) ==> Partial(Group(kind, g), i + 1) == Partial(Group(kind, g), i)
    ensures forall t :: 0 <= t < 9 && Group(kind, g)[t] == i ==>
      Partial(Group(kind, g), i + 1) == Partial(Group(kind, g), i)[t := i]
  {
  }

  /** The first free slot of cell i's zone, when the loop reaches i, is the cell's slot. */
  lemma ZoneFirstFree(i: int)
    requires IsIndex(i)
    ensures 0 <= ZoneOf(i) < 9 && 0 <= ZoneSlot(i) < 9
    ensures NoCell in Partial(ZoneView(ZoneOf(i)), i)
    ensures IndexOf(Partial(ZoneView(ZoneOf(i)), i), NoCell) == ZoneSlot(i)
  {
    var k, s := ZoneOf(i), ZoneSlot(i);
    ZoneSlotAt(i);
    var p := Partial(ZoneView(k), i);
    forall m | 0 <= m < s ensures p[m] != NoCell {
      ViewsIncreasing(Zones, k, m, s);
      ZoneViewAt(k, m);
    }
    assert p[s] == NoCell;
  }

  lemma PartialComplete(v: seq<int>)
    requires forall t :: 0 <= t < |v| ==> IsIndex(v[t])
    ensures Partial(v, CellCount) == v
  {
  }

  /** Index of the first occurrence of x in s (Python's list.index). */
  function IndexOf(s: seq<int>, x: int): (n: int)
    requires x in s
    ensures 0 <= n < |s| && s[n] == x && forall m :: 0 <= m < n ==> s[m] != x
  {
    if s[0] == x then 0 else 1 + IndexOf(s[1..], x)
  }

  /** Cell i goes to slot i % 9 of row i / 9 and slot i / 9 of column i % 9. */
  lemma PlaceInRowsCols(rows: seq<seq<int>>, cols: seq<seq<int>>, i: int, r: int, c: int)
    requires IsIndex(i) && |rows| == 9 && |cols| == 9 && r == i / 9 && c == i % 9
    requires 0 <= r < 9 && 0 <= c < 9 && |rows[r]| == 9 && |cols[c]| == 9
    requires forall g :: 0 <= g < 9 ==> rows[g] == Partial(RowView(g), i) && cols[g] == Partial(ColView(g), i)
    ensures forall g :: 0 <= g < 9 ==>
      rows[r := rows[r][c := i]][g] == Partial(RowView(g), i + 1) &&
      cols[c := cols[c][r := i]][g] == Partial(ColView(g), i + 1)
  {
    forall g | 0 <= g < 9
      ensures rows[r := rows[r][c := i]][g] == Partial(RowView(g), i + 1)
      ensures cols[c := cols[c][r := i]][g] == Partial(ColView(g), i + 1)
    {
      PartialStep(Rows, g, i);
      PartialStep(Cols, g, i);
      RowViewIff(g, i);
      ColViewIff(g, i);
    }
  }

  lemma PlaceInZones(zones: seq<seq<int>>, i: int, z: int, slot: int)
    requires IsIndex(i) && |zones| == 9 && z == ZoneOf(i) && slot == ZoneSlot(i)
    requires 0 <= z < 9 && 0 <= slot < 9 && |zones[z]| == 9
    requires forall g :: 0 <= g < 9 ==> zones[g] == Partial(ZoneView(g), i)
    ensures forall g :: 0 <= g < 9 ==> zones[z := zones[z][slot := i]][g] == Partial(ZoneView(g), i + 1)
  {
    ZoneSlotAt(i);
    forall g | 0 <= g < 9
      ensures zones[z := zones[z][slot := i]][g] == Partial(ZoneView(g), i + 1)
    {
      PartialStep(Zones, g, i);
      ZoneViewIff(g, i);
    }
  }

  /** Fills the rows, columns and zones views from the flat list of 81 cells the way
      SudokuGrid.__init__ does: cell i goes to rows[i / 9][i % 9], cols[i % 9][i / 9]
      and the first free slot of zones[zone of i]. */
  method BuildViews() returns (rows: seq<seq<int>>, cols: seq<seq<int>>, zones: seq<seq<int>>)
    ensures |rows| == 9 && |cols| == 9 && |zones| == 9
    ensures forall r :: 0 <= r < 9 ==> rows[r] == RowView(r)
    ensures forall c :: 0 <= c < 9 ==> cols[c] == ColView(c)
    ensures forall k :: 0 <= k < 9 ==> zones[k] == ZoneView(k)
  {
    var blank := seq(9, _ => NoCell);
    rows, cols, zones := seq(9, _ => blank), seq(9, _ => blank), seq(9, _ => blank);
    var i := 0;
    while i < 81
      invariant 0 <= i <= 81
      invariant |rows| == 9 && |cols| == 9 && |zones| == 9
      invariant forall g :: 0 <= g < 9 ==> rows[g] == Partial(RowView(g), i)
      invariant forall g :: 0 <= g < 9 ==> cols[g] == Partial(ColView(g), i)
      invariant forall g :: 0 <= g < 9 ==> zones[g] == Partial(ZoneView(g), i)
    {
      var r, c, z := i / 9, i % 9, ZoneOf(i);
      ZoneFirstFree(i);
      var slot := IndexOf(zones[z], NoCell);
      PlaceInRowsCols(rows, cols, i, r, c);
      PlaceInZones(zones, i, z, slot);
      rows := rows[r := rows[r][c := i]];
      cols := cols[c := cols[c][r := i]];
      zones := zones[z := zones[z][slot := i]];
      i := i + 1;
    }
    forall g | 0 <= g < 9
      ensures rows[g] == RowView(g) && cols[g] == ColView(g) && zones[g] == ZoneView(g)
    {
      PartialComplete(RowView(g));
      PartialComplete(ColView(g));
      PartialComplete(ZoneView(g));
    }
  }
}
