/** The state of a Sudoku grid as a value: the 81 cell values (row-major, -1 for an
    empty cell) and the 81 note sets.  Every operation of SudokuGrid and Cell that
    changes the grid is specified here as a function from one board to the next; the
    Grid class is proved to follow these functions. */
module Boards {
  import opened Cells
  import opened Results
  import Utils

  const Digits: set<int> := set v | 1 <= v <= 9

  datatype BoardState = BoardState(vals: seq<int>, notes: seq<set<int>>)

  type Board = b: BoardState | |b.vals| == CellCount && |b.notes| == CellCount
    witness BoardState(seq(81, _ => Empty), seq(81, _ => {}))

  /** Notes never hold anything but the digits 1..9. */
  predicate Valid(b: Board)
  {
    forall i :: 0 <= i < CellCount ==> b.notes[i] <= Digits
  }

  // ---------------------------------------------------------------------------
  // get_possible_values

  /** The non-empty values held by the cells of one view. */
  function UsedIn(vals: seq<int>, view: seq<int>): set<int>
  {
    set j | j in view && 0 <= j < |vals| && vals[j] != Empty :: vals[j]
  }

  /** The values already placed in the row, column and zone of cell i. */
  function Used(vals: seq<int>, i: int): set<int>
    requires |vals| == CellCount && IsIndex(i)
  {
    UsedIn(vals, RowView(RowOf(i))) + UsedIn(vals, ColView(ColOf(i))) + UsedIn(vals, ZoneView(ZoneOf(i)))
  }

  /** Used holds exactly the non-empty values of the cells sharing a unit with cell i. */
  lemma UsedIff(vals: seq<int>, i: int)
    requires |vals| == CellCount && IsIndex(i)
    ensures forall j :: IsIndex(j) && SharesUnit(i, j) && vals[j] != Empty ==> vals[j] in Used(vals, i)
    ensures forall v :: v in Used(vals, i) ==> v != Empty && exists j :: IsIndex(j) && SharesUnit(i, j) && vals[j] == v
  {
    forall j | IsIndex(j) && SharesUnit(i, j) && vals[j] != Empty
      ensures vals[j] in Used(vals, i)
    {
      UsedHas(vals, i, j);
    }
    forall v | v in Used(vals, i)
      ensures v != Empty && exists j :: IsIndex(j) && SharesUnit(i, j) && vals[j] == v
    {
      UsedFrom(vals, i, v);
    }
  }

  lemma UsedHas(vals: seq<int>, i: int, j: int)
    requires |vals| == CellCount && IsIndex(i) && IsIndex(j) && SharesUnit(i, j) && vals[j] != Empty
    ensures vals[j] in Used(vals, i)
  {
    ObserverSetsIff(i, j);
    if SameRow(i, j) {
      assert vals[j] in UsedIn(vals, RowView(RowOf(i)));
    } else if SameCol(i, j) {
      assert vals[j] in UsedIn(vals, ColView(ColOf(i)));
    } else {
      assert vals[j] in UsedIn(vals, ZoneView(ZoneOf(i)));
    }
  }

  lemma UsedFrom(vals: seq<int>, i: int, v: int)
    requires |vals| == CellCount && IsIndex(i) && v in Used(vals, i)
    ensures v != Empty && exists j :: IsIndex(j) && SharesUnit(i, j) && vals[j] == v
  {
    var row, col, zone := RowView(RowOf(i)), ColView(ColOf(i)), ZoneView(ZoneOf(i));
    var j :| (j in row || j in col || j in zone) && 0 <= j < |vals| && vals[j] != Empty && vals[j] == v;
    ObserverSetsIff(i, j);
  }

  /** get_possible_values: the cell's current notes minus every value placed in its
      row, column or zone. */
  function PossibleValues(b: Board, i: int): (r: set<int>)
    requires IsIndex(i)
    ensures r <= b.notes[i]
  {
    b.notes[i] - Used(b.vals, i)
  }

  /** A possible value is a note of the cell that no cell of its row, column or zone
      holds, and every such note is a possible value. */
  lemma PossibleValuesIff(b: Board, i: int)
    requires IsIndex(i)
    ensures forall j :: IsIndex(j) && SharesUnit(i, j) && b.vals[j] != Empty ==> b.vals[j] !in PossibleValues(b, i)
    ensures forall v :: (v in b.notes[i] && v != Empty &&
      forall j :: IsIndex(j) && SharesUnit(i, j) ==> b.vals[j] != v) ==> v in PossibleValues(b, i)
  {
    UsedIff(b.vals, i);
  }

  // ---------------------------------------------------------------------------
  // Construction: Cell.__init__ for every input value, then compute_cell_notes

  /** The board right after the cells are created: 0 is stored as -1 and every cell
      starts with the notes {1..9} (the default argument of Cell.__init__). */
  function Loaded(input: seq<int>): Board
    requires |input| == CellCount
  {
    BoardState(seq(81, i requires 0 <= i < 81 => StoredValue(input[i])), seq(81, _ => Digits))
  }

  /** compute_cell_notes: every empty cell's notes become its possible values. */
  function ComputeNotes(b: Board): Board
  {
    BoardState(b.vals, seq(81, i requires 0 <= i < 81 =>
      if b.vals[i] == Empty then PossibleValues(b, i) else b.notes[i]))
  }

  function Initial(input: seq<int>): Board
    requires |input| == CellCount
  {
    ComputeNotes(Loaded(input))
  }

  /** After construction every empty cell's notes are {1..9} minus the values of its
      row, column and zone; a given cell keeps the shared default {1..9}. */
  lemma InitialNotes(input: seq<int>, i: int)
    requires |input| == CellCount && IsIndex(i)
    ensures Initial(input).vals[i] == StoredValue(input[i])
    ensures StoredValue(input[i]) == Empty ==> Initial(input).notes[i] == Digits - Used(Initial(input).vals, i)
    ensures StoredValue(input[i]) != Empty ==> Initial(input).notes[i] == Digits
    ensures Valid(Initial(input))
  {
    var l := Loaded(input);
    var b := Initial(input);
    assert b.vals == l.vals;
    forall k | 0 <= k < 81 ensures b.notes[k] <= Digits {
      assert l.notes[k] == Digits;
      if l.vals[k] == Empty {
        assert b.notes[k] == PossibleValues(l, k);
      }
    }
  }

  // ---------------------------------------------------------------------------
  // Cell.set_value and CellObserver.update_cells

  /** The cell takes the value and its notes are cleared. */
  function Place(b: Board, i: int, v: int): Board
    requires IsIndex(i)
  {
    BoardState(b.vals[i := v], b.notes[i := {}])
  }

  /** update_cells: every empty peer of cell i gets its possible values as notes. */
  function UpdatePeers(b: Board, i: int): Board
    requires IsIndex(i)
  {
    BoardState(b.vals, seq(81, j requires 0 <= j < 81 => PeerNotes(b, i, j)))
  }

  /** The notes cell j has after update_cells for cell i. */
  function PeerNotes(b: Board, i: int, j: int): set<int>
    requires IsIndex(i) && IsIndex(j)
  {
    if j in Peers(i) && b.vals[j] == Empty then PossibleValues(b, j) else b.notes[j]
  }

  lemma PeersUpdated(b: Board, i: int, ns: seq<set<int>>)
    requires IsIndex(i) && |ns| == CellCount
    requires forall k :: 0 <= k < CellCount ==> ns[k] == PeerNotes(b, i, k)
    ensures ns == UpdatePeers(b, i).notes
  {
  }

  /** The effect of set_value on an empty cell. */
  function Assign(b: Board, i: int, v: int): Board
    requires IsIndex(i)
  {
    UpdatePeers(Place(b, i, v), i)
  }

  /** A step that reports whether it did something, and the board it leaves. */
  datatype Pass = Pass(changed: bool, board: Board)

  /** A step that may raise: its changed flag or its error, and the board it leaves
      (at an error, the board as far as the step got). */
  datatype Effect = Effect(result: Result<bool>, board: Board)

  /** The single element of a one-element set (what set.pop() returns for it). */
  function Only(s: set<int>): (v: int)
    requires |s| == 1
    ensures s == {v}
  {
    NoMembers(s);
    var v :| v in s;
    Singleton(s, v);
    v
  }

  /** A set without members has no elements to count. */
  lemma NoMembers(s: set<int>)
    ensures (forall x :: x !in s) ==> |s| == 0
  {
    if forall x :: x !in s {
      assert s == {};
    }
  }

  lemma Singleton(s: set<int>, v: int)
    requires |s| == 1 && v in s
    ensures s == {v}
  {
    var rest := s - {v};
    assert s == rest + {v};
    assert |rest| == 0;
  }

  /** set_value: only an empty cell takes a value. */
  function SetValueEffect(b: Board, i: int, v: int): (p: Pass)
    requires IsIndex(i)
    ensures p.changed <==> b.vals[i] == Empty
    ensures !p.changed ==> p.board == b
    ensures p.changed ==> p.board.vals[i] == v && p.board.notes[i] == {}
  {
    if b.vals[i] == Empty then Pass(true, Assign(b, i, v)) else Pass(false, b)
  }

  /** After an assignment, no empty peer keeps the assigned value as a note, no other
      value changes, and cells outside the row, column and zone are untouched. */
  lemma AssignEffect(b: Board, i: int, v: int, j: int)
    requires IsIndex(i) && IsIndex(j) && j != i
    ensures Assign(b, i, v).vals[j] == b.vals[j]
    ensures j in Peers(i) && b.vals[j] == Empty && v != Empty ==> v !in Assign(b, i, v).notes[j]
    ensures j in Peers(i) && b.vals[j] == Empty ==> Assign(b, i, v).notes[j] <= b.notes[j]
    ensures j !in Peers(i) || b.vals[j] != Empty ==> Assign(b, i, v).notes[j] == b.notes[j]
  {
    var p := Place(b, i, v);
    assert Assign(b, i, v).notes[j] == PeerNotes(p, i, j);
    if j in Peers(i) && b.vals[j] == Empty && v != Empty {
      assert p.vals[i] == v;
      PeersSymmetric(i, j);
      if i in RowSet(j) {
        assert v in UsedIn(p.vals, RowView(RowOf(j)));
      } else if i in ColSet(j) {
        assert v in UsedIn(p.vals, ColView(ColOf(j)));
      } else {
        assert v in UsedIn(p.vals, ZoneView(ZoneOf(j)));
      }
    }
  }

  // ---------------------------------------------------------------------------
  // Whole-board queries

  /** is_complete */
  function IsComplete(b: Board): (r: bool)
    ensures r <==> forall i :: 0 <= i < CellCount ==> b.vals[i] != Empty
  {
    Empty !in b.vals
  }

  /** The values of one group of a view, in view order. */
  function UnitValues(b: Board, kind: UnitKind, g: int): (s: seq<int>)
    requires 0 <= g < 9
    ensures |s| == 9 && forall t :: 0 <= t < 9 ==> s[t] == b.vals[Group(kind, g)[t]]
  {
    seq(9, t requires 0 <= t < 9 => b.vals[Group(kind, g)[t]])
  }

  /** Two different cells sharing a row, column or zone never hold the same value. */
  ghost predicate NoClash(b: Board)
  {
    forall i, j :: IsIndex(i) && IsIndex(j) && i != j && SharesUnit(i, j) && b.vals[i] != Empty ==>
      b.vals[i] != b.vals[j]
  }

  /** is_correct: every row, then every column, then every zone passes is_unique. */
  function IsCorrect(b: Board): (r: bool)
    ensures r <==> NoClash(b)
  {
    CorrectIff(b);
    forall k, g | 0 <= k < 3 && 0 <= g < 9 :: Utils.NoRepeats(UnitValues(b, KindAt(k), g))
  }

  /** Every group of every view is free of repeats. */
  ghost predicate UnitsUnique(b: Board)
  {
    forall k, g :: 0 <= k < 3 && 0 <= g < 9 ==> Utils.NoRepeats(UnitValues(b, KindAt(k), g))
  }

  lemma CorrectIff(b: Board)
    ensures UnitsUnique(b) <==> NoClash(b)
  {
    if UnitsUnique(b) {
      forall i, j | IsIndex(i) && IsIndex(j) && i != j && SharesUnit(i, j) && b.vals[i] != Empty
        ensures b.vals[i] != b.vals[j]
      {
        UniqueNoClash(b, i, j);
      }
    }
    if NoClash(b) {
      forall k, g | 0 <= k < 3 && 0 <= g < 9 ensures Utils.NoRepeats(UnitValues(b, KindAt(k), g)) {
        NoClashUnique(b, KindAt(k), g);
      }
    }
  }

  lemma UniqueNoClash(b: Board, i: int, j: int)
    requires UnitsUnique(b)
    requires IsIndex(i) && IsIndex(j) && i != j && SharesUnit(i, j) && b.vals[i] != Empty
    ensures b.vals[i] != b.vals[j]
  {
    var k := if SameRow(i, j) then 0 else if SameCol(i, j) then 1 else 2;
    var kind := KindAt(k);
    var g, x := GroupOfCell(kind, i);
    var g', y := GroupOfCell(kind, j);
    GroupIff(kind, g, i);
    GroupIff(kind, g', j);
    assert g' == g;
    var s := UnitValues(b, kind, g);
    assert Utils.NoRepeats(s);
    assert s[x] == b.vals[i] && s[y] == b.vals[j];
  }

  lemma NoClashUnique(b: Board, kind: UnitKind, g: int)
    requires NoClash(b) && 0 <= g < 9
    ensures Utils.NoRepeats(UnitValues(b, kind, g))
  {
    var s := UnitValues(b, kind, g);
    forall x, y | 0 <= x < 9 && 0 <= y < 9 && x != y && s[x] != Empty ensures s[x] != s[y] {
      var i, j := Group(kind, g)[x], Group(kind, g)[y];
      if x < y { ViewsIncreasing(kind, g, x, y); } else { ViewsIncreasing(kind, g, y, x); }
      GroupIff(kind, g, i);
      GroupIff(kind, g, j);
    }
  }

  /** get_cell: the flat index of the cell at (row, col), or an error when either
      index lies outside 0..8. */
  function CellAt(row: int, col: int): (r: Result<int>)
    ensures r.Ok? <==> 0 <= row < 9 && 0 <= col < 9
    ensures r.Ok? ==> IsIndex(r.value) && RowOf(r.value) == row && ColOf(r.value) == col
    ensures r.Ok? ==> r.value == Group(Rows, row)[col] && r.value == Group(Cols, col)[row]
  {
    if 0 <= row < 9 && 0 <= col < 9 then Ok(RowView(row)[col])
    else Err(IndexOutOfRange)
  }

  // ---------------------------------------------------------------------------
  // Progress: notes only shrink, values are only ever added

  /** b2 is b1 with some empty cells filled and some notes removed. */
  predicate Shrinks(b1: Board, b2: Board)
  {
    forall i :: 0 <= i < CellCount ==>
      (b1.vals[i] != Empty ==> b2.vals[i] == b1.vals[i]) && b2.notes[i] <= b1.notes[i]
  }

  /** A rule's changed flag is true exactly when it started true or the board changed. */
  predicate Progress(b1: Board, b2: Board, c1: bool, c2: bool)
  {
    Shrinks(b1, b2) && (c2 <==> c1 || b2 != b1)
  }

  function Weight(b: Board, i: int): nat
    requires IsIndex(i)
  {
    (if b.vals[i] == Empty then 10 else 0) + |b.notes[i]|
  }

  /** Ten per empty cell plus one per note, from cell i on. */
  function MeasureFrom(b: Board, i: nat): nat
    decreases CellCount - i
  {
    if i >= CellCount then 0 else Weight(b, i) + MeasureFrom(b, i + 1)
  }

  function Measure(b: Board): nat { MeasureFrom(b, 0) }

  lemma SubsetCard(a: set<int>, c: set<int>)
    requires a <= c
    ensures |a| <= |c| && (a != c ==> |a| < |c|)
  {
    var d := c - a;
    assert c == a + d && a * d == {};
    if |d| == 0 {
      assert d == {};
      assert c == a;
    }
  }

  lemma {:induction false} MeasureFromShrinks(b1: Board, b2: Board, i: nat)
    requires Shrinks(b1, b2) && i <= CellCount
    ensures MeasureFrom(b2, i) <= MeasureFrom(b1, i)
    ensures (exists k :: i <= k < CellCount && (b2.vals[k] != b1.vals[k] || b2.notes[k] != b1.notes[k]))
      ==> MeasureFrom(b2, i) < MeasureFrom(b1, i)
    decreases CellCount - i
  {
    if i < CellCount {
      MeasureFromShrinks(b1, b2, i + 1);
      SubsetCard(b2.notes[i], b1.notes[i]);
    }
  }

  /** A board that shrinks never weighs more, and weighs strictly less once it differs. */
  lemma MeasureShrinks(b1: Board, b2: Board)
    requires Shrinks(b1, b2)
    ensures Measure(b2) <= Measure(b1)
    ensures b2 != b1 ==> Measure(b2) < Measure(b1)
  {
    MeasureFromShrinks(b1, b2, 0);
    if b2 != b1 {
      DiffersAtSomeCell(b1, b2);
    }
  }

  lemma DiffersAtSomeCell(b1: Board, b2: Board)
    requires b2 != b1
    ensures exists k :: 0 <= k < CellCount && (b2.vals[k] != b1.vals[k] || b2.notes[k] != b1.notes[k])
  {
    if b2.vals != b1.vals {
      var k :| 0 <= k < CellCount && b2.vals[k] != b1.vals[k];
    } else {
      assert b2.notes != b1.notes;
      var k :| 0 <= k < CellCount && b2.notes[k] != b1.notes[k];
    }
  }

  /** A set of notes is emptied by removing c exactly when all of it lies in c. */
  lemma Drained(a: set<int>, c: set<int>)
    ensures a - c == {} <==> a <= c
  {
    if a - c == {} {
      forall x | x in a ensures x in c {
        assert x !in a - c;
      }
    }
  }

  /** Shrinking is transitive. */
  lemma ShrinksTrans(b1: Board, b2: Board, b3: Board)
    requires Shrinks(b1, b2) && Shrinks(b2, b3)
    ensures Shrinks(b1, b3)
  {
  }

  lemma ProgressTrans(b1: Board, b2: Board, b3: Board, c1: bool, c2: bool, c3: bool)
    requires Progress(b1, b2, c1, c2) && Progress(b2, b3, c2, c3)
    ensures Progress(b1, b3, c1, c3)
  {
    MeasureShrinks(b1, b2);
    MeasureShrinks(b2, b3);
  }

  /** b2 follows from b1 by deduction: it shrinks, and every cell it fills was empty
      in b1 with the placed value among its notes. */
  predicate Deduced(b1: Board, b2: Board)
  {
    Shrinks(b1, b2) &&
    forall i :: 0 <= i < CellCount && b1.vals[i] == Empty && b2.vals[i] != Empty ==> b2.vals[i] in b1.notes[i]
  }

  lemma DeducedTrans(b1: Board, b2: Board, b3: Board)
    requires Deduced(b1, b2) && Deduced(b2, b3)
    ensures Deduced(b1, b3)
  {
    forall i | 0 <= i < CellCount && b1.vals[i] == Empty && b3.vals[i] != Empty
      ensures b3.vals[i] in b1.notes[i]
    {
      if b2.vals[i] != Empty {
        assert b3.vals[i] == b2.vals[i];
      } else {
        assert b3.vals[i] in b2.notes[i];
      }
    }
  }

  /** Filling an empty cell with one of its notes is a deduction step. */
  lemma AssignDeduced(b: Board, i: int, v: int)
    requires IsIndex(i) && b.vals[i] == Empty && v in b.notes[i]
    ensures Deduced(b, Assign(b, i, v)) && Assign(b, i, v) != b
  {
    AssignShrinks(b, i, v);
    forall j | 0 <= j < CellCount && j != i ensures Assign(b, i, v).vals[j] == b.vals[j] {
      AssignEffect(b, i, v, j);
    }
  }

  lemma ShrinksValid(b1: Board, b2: Board)
    requires Valid(b1) && Shrinks(b1, b2)
    ensures Valid(b2)
  {
  }

  /** Setting an empty cell fills it and only shrinks notes: the board strictly
      shrinks whenever the value is a digit or the cell had notes. */
  lemma AssignShrinks(b: Board, i: int, v: int)
    requires IsIndex(i) && b.vals[i] == Empty
    ensures Shrinks(b, Assign(b, i, v))
    ensures v != Empty || b.notes[i] != {} ==> Assign(b, i, v) != b
  {
    var a := Assign(b, i, v);
    forall j | 0 <= j < CellCount ensures (b.vals[j] != Empty ==> a.vals[j] == b.vals[j]) && a.notes[j] <= b.notes[j] {
      if j != i { AssignEffect(b, i, v, j); }
    }
    if v == Empty && b.notes[i] != {} {
      assert a.notes[i] == {};
    }
  }
}
