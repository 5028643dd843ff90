/** SudokuGrid with its Cell objects held as an arena: cell i's value is vals[i] and
    its notes are notes[i].  The rows, columns and zones views are built once by the
    constructor and hold flat indices; a Cell object is its index, so `rows[r][c]`
    and `cols[c][r]` naming the same cell means they hold the same index. */
module Grids {
  import opened Cells
  import opened Results
  import opened Boards
  import Utils

  class Grid {
    const vals: array<int>
    const notes: array<set<int>>
    const rows: seq<seq<int>>
    const cols: seq<seq<int>>
    const zones: seq<seq<int>>

    /** The arena has 81 cells and the views are the row, column and zone index lists. */
    predicate Shape()
    {
      vals.Length == CellCount && notes.Length == CellCount &&
      |rows| == 9 && |cols| == 9 && |zones| == 9 &&
      forall g :: 0 <= g < 9 ==> rows[g] == RowView(g) && cols[g] == ColView(g) && zones[g] == ZoneView(g)
    }

    ghost function State(): Board
      requires Shape()
      reads vals, notes
    {
      BoardState(vals[..], notes[..])
    }

    /** SudokuGrid.__init__ for an input of 81 values: one cell per value (0 stored as
        -1, notes {1..9}), the views filled by BuildViews, then compute_cell_notes. */
    constructor(input: seq<int>)
      requires |input| == CellCount
      ensures Shape() && State() == Initial(input)
      ensures fresh(vals) && fresh(notes)
    {
      var v := new int[81];
      var n := new set<int>[81];
      for i := 0 to 81
        invariant forall k :: 0 <= k < i ==> v[k] == StoredValue(input[k]) && n[k] == Digits
      {
        v[i] := StoredValue(input[i]);
        n[i] := Digits;
      }
      var r, c, z := BuildViews();
      vals, notes, rows, cols, zones := v, n, r, c, z;
      new;
      assert State() == Loaded(input);
      ComputeCellNotes();
    }

    /** compute_cell_notes: each empty cell, in row-major order, gets its possible values. */
    method ComputeCellNotes()
      requires Shape()
      modifies notes
      ensures State() == ComputeNotes(old(State()))
    {
      ghost var b := State();
      ghost var target := ComputeNotes(b);
      var values := vals[..];
      for i := 0 to 81
        invariant forall k :: 0 <= k < i ==> notes[k] == target.notes[k]
        invariant forall k :: i <= k < 81 ==> notes[k] == b.notes[k]
      {
        if values[i] == Empty {
          notes[i] := notes[i] - Used(values, i);
        }
        assert notes[i] == target.notes[i];
      }
    }

    /** Cell.set_value on cell i: an empty cell takes v, loses its notes and has its
        observer update its empty peers; a filled cell is left alone. */
    method SetValue(i: int, v: int) returns (ok: bool)
      requires Shape() && IsIndex(i)
      modifies vals, notes
      ensures Pass(ok, State()) == SetValueEffect(old(State()), i, v)
    {
      if vals[i] == Empty {
        vals[i] := v;
        notes[i] := {};
        UpdateCells(i);
        ok := true;
      } else {
        ok := false;
      }
    }

    /** CellObserver.update_cells for cell i: every empty peer recomputes its notes. */
    method UpdateCells(i: int)
      requires Shape() && IsIndex(i)
      modifies notes
      ensures State() == UpdatePeers(old(State()), i)
    {
      ghost var b := State();
      var values := vals[..];
      var peers := Peers(i);
      for j := 0 to 81
        invariant forall k :: 0 <= k < j ==> notes[k] == PeerNotes(b, i, k)
        invariant forall k :: j <= k < 81 ==> notes[k] == b.notes[k]
      {
        if j in peers && values[j] == Empty {
          notes[j] := notes[j] - Used(values, j);
        }
        assert notes[j] == PeerNotes(b, i, j);
      }
      PeersUpdated(b, i, notes[..]);
    }

    /** get_cell */
    function GetCell(row: int, col: int): (r: Result<int>)
      requires Shape()
      ensures r == CellAt(row, col)
    {
      if 0 <= row < 9 && 0 <= col < 9 then Ok(rows[row][col]) else Err(IndexOutOfRange)
    }

    /** get_int_list: the values row by row. */
    method GetIntList() returns (r: seq<int>)
      requires Shape()
      ensures r == State().vals
    {
      r := [];
      for g := 0 to 9
        invariant r == vals[..9 * g]
      {
        for t := 0 to 9
          invariant r == vals[..9 * g + t]
        {
          r := r + [vals[rows[g][t]]];
        }
      }
    }

    /** is_complete */
    method IsComplete() returns (r: bool)
      requires Shape()
      ensures r == Boards.IsComplete(State())
    {
      var values := GetIntList();
      r := Empty !in values;
    }

    function View(k: int): (v: seq<seq<int>>)
      requires Shape() && 0 <= k < 3
      ensures |v| == 9 && forall g :: 0 <= g < 9 ==> v[g] == Group(KindAt(k), g)
    {
      if k == 0 then rows else if k == 1 then cols else zones
    }

    /** is_correct: rows, then columns, then zones, each group through is_unique. */
    method IsCorrect() returns (r: bool)
      requires Shape()
      ensures r == Boards.IsCorrect(State())
    {
      ghost var b := State();
      for k := 0 to 3
        invariant forall k', g :: 0 <= k' < k && 0 <= g < 9 ==> Utils.NoRepeats(UnitValues(b, KindAt(k'), g))
      {
        var view := View(k);
        for g := 0 to 9
          invariant forall k', g' :: 0 <= k' < k && 0 <= g' < 9 ==> Utils.NoRepeats(UnitValues(b, KindAt(k'), g'))
          invariant forall g' :: 0 <= g' < g ==> Utils.NoRepeats(UnitValues(b, KindAt(k), g'))
        {
          var snapshot := vals[..];
          var values := seq(9, t requires 0 <= t < 9 => snapshot[view[g][t]]);
          assert values == UnitValues(b, KindAt(k), g);
          var unique := Utils.IsUnique(values);
          if !unique {
            return false;
          }
        }
      }
      return true;
    }
  }

  /** The constructor's length check: any other length than 81 is a ValueError. */
  method NewGrid(input: seq<int>) returns (r: Result<Grid>)
    ensures r.Ok? <==> |input| == CellCount
    ensures r.Err? ==> r.error == GridShape
    ensures r.Ok? ==> r.value.Shape() && r.value.State() == Initial(input)
    ensures r.Ok? ==> fresh(r.value.vals) && fresh(r.value.notes)
  {
    if |input| != CellCount {
      return Err(GridShape);
    }
    var g := new Grid(input);
    return Ok(g);
  }
}
