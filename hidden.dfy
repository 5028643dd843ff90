/** The hidden strategies of DR2: hidden singles (DR2_1), hidden pairs (DR2_2) and
    hidden triples (DR2_3).  Each group of each view (rows, then columns, then zones)
    gets its occurrence map computed on the board as it is when the group's turn
    comes, and the rule then works from that map.  Hidden pairs and triples only
    intersect note sets, so their effect on a group is stated without any visiting
    order, as a set of narrowings; hidden singles is a fold over the notes. */
module HiddenRules {
  import opened Cells
  import opened Boards
  import opened Grids
  import Utils

  datatype HiddenKind = Singles | Pairs | Triples

  // ---------------------------------------------------------------------------
  // get_notes_occurences

  /** The empty cells of the list whose notes hold v. */
  function Holders(b: Board, cells: seq<int>, v: int): set<int>
  {
    set c | c in cells && IsIndex(c) && b.vals[c] == Empty && v in b.notes[c]
  }

  /** Every note held by an empty cell of the list. */
  function Noted(b: Board, cells: seq<int>): set<int>
  {
    set c, v | c in cells && IsIndex(c) && b.vals[c] == Empty && v in b.notes[c] :: v
  }

  /** The occurrence map of a list of cells: each note of an empty cell, mapped to
      the empty cells that hold it. */
  function Occurrences(b: Board, cells: seq<int>): (occ: map<int, set<int>>)
    ensures Indexed(occ)
  {
    map v | v in Noted(b, cells) :: Holders(b, cells, v)
  }

  /** Every cell named by the map is a cell of the grid. */
  predicate Indexed(occ: map<int, set<int>>)
  {
    forall v, c :: v in occ && c in occ[v] ==> IsIndex(c)
  }

  /** A note is a key exactly when some empty cell of the list holds it, and its
      cells are exactly those empty cells. */
  lemma OccurrencesIff(b: Board, cells: seq<int>, v: int)
    ensures v in Occurrences(b, cells) <==>
      exists c :: c in cells && IsIndex(c) && b.vals[c] == Empty && v in b.notes[c]
    ensures v in Occurrences(b, cells) ==>
      forall c :: c in Occurrences(b, cells)[v] <==> c in cells && IsIndex(c) && b.vals[c] == Empty && v in b.notes[c]
  {
    if exists c :: c in cells && IsIndex(c) && b.vals[c] == Empty && v in b.notes[c] {
      var c :| c in cells && IsIndex(c) && b.vals[c] == Empty && v in b.notes[c];
      assert v in Noted(b, cells);
    }
  }

  /** The map with cell c added under each note of vs. */
  function AddCell(m: map<int, set<int>>, c: int, vs: set<int>): map<int, set<int>>
  {
    map v | v in m.Keys + vs :: (if v in m then m[v] else {}) + (if v in vs then {c} else {})
  }

  lemma AddCellNone(m: map<int, set<int>>, c: int)
    ensures AddCell(m, c, {}) == m
  {
    assert AddCell(m, c, {}).Keys == m.Keys;
    forall v | v in m ensures AddCell(m, c, {})[v] == m[v] {
    }
  }

  /** The dictionary update of get_notes_occurences for one note of cell c: a known
      note gets c added to its set, a new note gets the set holding just c. */
  function Added(m: map<int, set<int>>, note: int, c: int): map<int, set<int>>
  {
    if note in m then m[note := m[note] + {c}] else m[note := {c}]
  }

  /** Visiting one more note of the cell is one dictionary update. */
  lemma AddCellStep(m: map<int, set<int>>, c: int, vs: set<int>, note: int)
    requires note !in vs
    ensures AddCell(m, c, vs + {note}) == Added(AddCell(m, c, vs), note, c)
  {
    var a' := AddCell(m, c, vs + {note});
    var r := Added(AddCell(m, c, vs), note, c);
    assert a'.Keys == r.Keys;
    forall v | v in r ensures a'[v] == r[v] {
    }
  }

  lemma VisitStep(notes: set<int>, rest: set<int>, note: int)
    requires rest <= notes && note in rest
    ensures notes - (rest - {note}) == (notes - rest) + {note} && note !in notes - rest
  {
  }

  /** One more cell of the list: an empty cell is added under each of its notes. */
  lemma OccurrencesStep(b: Board, cells: seq<int>, t: int)
    requires AllIndices(cells) && 0 <= t < |cells|
    ensures Occurrences(b, cells[..t + 1]) ==
      if b.vals[cells[t]] == Empty then AddCell(Occurrences(b, cells[..t]), cells[t], b.notes[cells[t]])
      else Occurrences(b, cells[..t])
  {
    var c := cells[t];
    var before, after := cells[..t], cells[..t + 1];
    assert after == before + [c];
    var m, m' := Occurrences(b, before), Occurrences(b, after);
    var vs := if b.vals[c] == Empty then b.notes[c] else {};
    HoldersStep(b, before, c);
    NotedStep(b, before, c);
    var r := AddCell(m, c, vs);
    assert m'.Keys == r.Keys;
    forall v | v in r ensures m'[v] == r[v] {
    }
    if b.vals[c] != Empty {
      AddCellNone(m, c);
    }
  }

  lemma HoldersStep(b: Board, cells: seq<int>, c: int)
    requires IsIndex(c)
    ensures forall v :: (Holders(b, cells + [c], v) ==
      Holders(b, cells, v) + (if b.vals[c] == Empty && v in b.notes[c] then {c} else {}))
  {
  }

  lemma NotedStep(b: Board, cells: seq<int>, c: int)
    requires IsIndex(c)
    ensures Noted(b, cells + [c]) == Noted(b, cells) + (if b.vals[c] == Empty then b.notes[c] else {})
  {
    forall v ensures v in Noted(b, cells + [c]) <==> v in Noted(b, cells) || (b.vals[c] == Empty && v in b.notes[c]) {
      OccurrencesIff(b, cells, v);
      OccurrencesIff(b, cells + [c], v);
    }
  }

  /** DR2.get_notes_occurences: the empty cells of the group, each under each of its
      notes. */
  method GetNotesOccurences(g: Grid, group: seq<int>) returns (occ: map<int, set<int>>)
    requires g.Shape() && AllIndices(group)
    ensures occ == Occurrences(g.State(), group)
  {
    ghost var b := g.State();
    occ := map[];
    assert Occurrences(b, group[..0]).Keys == {};
    for t := 0 to |group|
      invariant occ == Occurrences(b, group[..t])
    {
      var cell := group[t];
      OccurrencesStep(b, group, t);
      if g.vals[cell] == Empty {
        occ := AddNotes(g, occ, cell);
      }
    }
    assert group[..|group|] == group;
  }

  /** The inner loop of get_notes_occurences: the cell is added under each of its
      notes, in a new set for a note not seen before. */
  method AddNotes(g: Grid, occ: map<int, set<int>>, cell: int) returns (r: map<int, set<int>>)
    requires g.Shape() && IsIndex(cell)
    ensures r == AddCell(occ, cell, g.notes[cell])
  {
    var notes := g.notes[cell];
    var rest := notes;
    r := occ;
    AddCellNone(occ, cell);
    while rest != {}
      invariant rest <= notes
      invariant r == AddCell(occ, cell, notes - rest)
      decreases |rest|
    {
      NoMembers(rest);
      var note :| note in rest;
      AddCellStep(occ, cell, notes - rest, note);
      VisitStep(notes, rest, note);
      if note in r {
        r := r[note := r[note] + {cell}];
      } else {
        r := r[note := {cell}];
      }
      assert r == Added(AddCell(occ, cell, notes - rest), note, cell);
      rest := rest - {note};
    }
    assert notes - rest == notes;
  }

  // ---------------------------------------------------------------------------
  // Narrowing note sets: `cell.notes &= keep` on a set of cells

  /** The notes of `cells` are intersected with `keep`. */
  datatype Narrowing = Narrowing(keep: set<int>, cells: set<int>)

  /** What is left of the notes of cell c once every narrowing of `acts` is applied. */
  function Allowed(notes: set<int>, acts: set<Narrowing>, c: int): set<int>
  {
    set v | v in notes && forall a :: a in acts && c in a.cells ==> v in a.keep
  }

  /** The board with every narrowing of `acts` applied, in any order. */
  function Narrowed(b: Board, acts: set<Narrowing>): Board
  {
    BoardState(b.vals, seq(81, c requires 0 <= c < 81 => Allowed(b.notes[c], acts, c)))
  }

  lemma NarrowedNone(b: Board)
    ensures Narrowed(b, {}) == b
  {
    forall c | 0 <= c < CellCount ensures Narrowed(b, {}).notes[c] == b.notes[c] {
    }
    assert Narrowed(b, {}).notes == b.notes;
  }

  /** Narrowing by A and then by B is narrowing by both. */
  lemma NarrowedUnion(b: Board, A: set<Narrowing>, B: set<Narrowing>)
    ensures Narrowed(Narrowed(b, A), B) == Narrowed(b, A + B)
  {
    forall c | 0 <= c < CellCount ensures Narrowed(Narrowed(b, A), B).notes[c] == Narrowed(b, A + B).notes[c] {
    }
    assert Narrowed(Narrowed(b, A), B).notes == Narrowed(b, A + B).notes;
  }

  /** One narrowing: its cells' notes are intersected with its keep set. */
  lemma NarrowedOne(b: Board, a: Narrowing, c: int)
    requires IsIndex(c)
    ensures Narrowed(b, {a}).notes[c] == if c in a.cells then b.notes[c] * a.keep else b.notes[c]
  {
  }

  /** Narrowing keeps the values, only shrinks notes, and leaves alone every cell no
      narrowing names; a named cell keeps only notes of the narrowing's keep set. */
  lemma NarrowedEffect(b: Board, acts: set<Narrowing>)
    ensures Narrowed(b, acts).vals == b.vals
    ensures Shrinks(b, Narrowed(b, acts))
    ensures forall a, c :: a in acts && c in a.cells && IsIndex(c) ==> Narrowed(b, acts).notes[c] <= a.keep
    ensures forall c :: IsIndex(c) && (forall a :: a in acts ==> c !in a.cells) ==> Narrowed(b, acts).notes[c] == b.notes[c]
  {
  }

  /** Narrowing changes the board exactly when some named cell holds a note outside
      the narrowing's keep set. */
  lemma NarrowedChanged(b: Board, acts: set<Narrowing>)
    ensures Narrowed(b, acts) != b <==>
      exists a, c :: a in acts && c in a.cells && IsIndex(c) && !(b.notes[c] <= a.keep)
  {
    var n := Narrowed(b, acts);
    if n != b {
      assert n.notes != b.notes;
      var c :| 0 <= c < 81 && n.notes[c] != b.notes[c];
      Outside(b.notes[c], n.notes[c]);
      var v :| v in b.notes[c] && v !in n.notes[c];
      var a :| a in acts && c in a.cells && v !in a.keep;
    }
    if exists a, c :: a in acts && c in a.cells && IsIndex(c) && !(b.notes[c] <= a.keep) {
      var a, c :| a in acts && c in a.cells && IsIndex(c) && !(b.notes[c] <= a.keep);
      Outside(b.notes[c], a.keep);
      var v :| v in b.notes[c] && v !in a.keep;
      assert v !in n.notes[c];
    }
  }

  /** The loop `for cell in cells: if cell.notes - keep: cell.notes &= keep`. */
  method NarrowCells(g: Grid, cells: set<int>, keep: set<int>, changed: bool) returns (ch: bool)
    requires g.Shape() && forall c :: c in cells ==> IsIndex(c)
    modifies g.notes
    ensures g.State() == Narrowed(old(g.State()), {Narrowing(keep, cells)})
    ensures ch <==> changed || exists c :: c in cells && IsIndex(c) && !(old(g.State()).notes[c] <= keep)
  {
    ghost var b := g.State();
    var rest := cells;
    ch := changed;
    while rest != {}
      invariant rest <= cells
      invariant forall k :: 0 <= k < CellCount ==>
        g.notes[k] == if k in cells - rest then b.notes[k] * keep else b.notes[k]
      invariant ch <==> changed || exists c :: c in cells - rest && IsIndex(c) && !(b.notes[c] <= keep)
      decreases |rest|
    {
      NoMembers(rest);
      var cell :| cell in rest;
      if g.notes[cell] - keep != {} {
        g.notes[cell] := g.notes[cell] * keep;
        ch := true;
      } else {
        Drained(g.notes[cell], keep);
        assert g.notes[cell] * keep == g.notes[cell];
      }
      rest := rest - {cell};
    }
    forall k | 0 <= k < CellCount ensures g.notes[k] == Narrowed(b, {Narrowing(keep, cells)}).notes[k] {
      NarrowedOne(b, Narrowing(keep, cells), k);
    }
  }

  lemma Outside(x: set<int>, y: set<int>)
    requires !(x <= y)
    ensures exists v :: v in x && v !in y
  {
    Drained(x, y);
    NoMembers(x - y);
  }

  /** A step that narrows by one action is a Progress step for its flag. */
  lemma NarrowProgress(b: Board, a: Narrowing, changed: bool, ch: bool)
    requires forall c :: c in a.cells ==> IsIndex(c)
    requires ch <==> changed || exists c :: c in a.cells && IsIndex(c) && !(b.notes[c] <= a.keep)
    ensures Progress(b, Narrowed(b, {a}), changed, ch)
  {
    NarrowedEffect(b, {a});
    NarrowedChanged(b, {a});
  }

  // ---------------------------------------------------------------------------
  // DR2_2: hidden pairs

  /** note_1 < note_2, each held by the same two cells. */
  predicate PairFires(occ: map<int, set<int>>, n1: int, n2: int)
    requires n1 in occ && n2 in occ
  {
    |occ[n1]| == 2 && n2 != n1 && n1 < n2 && |occ[n2]| == 2 && occ[n1] == occ[n2] &&
    |occ[n1] + occ[n2]| == 2
  }

  /** The narrowings of the inner loop for note_1 = n1, over the notes ns. */
  function PairsFor(occ: map<int, set<int>>, n1: int, ns: set<int>): set<Narrowing>
    requires n1 in occ && ns <= occ.Keys
  {
    set n2 | n2 in ns && PairFires(occ, n1, n2) :: Narrowing({n1, n2}, occ[n1])
  }

  /** The narrowings of the outer loop over the notes ns. */
  function PairActions(occ: map<int, set<int>>, ns: set<int>): set<Narrowing>
    requires ns <= occ.Keys
  {
    set n1, n2 | n1 in ns && n2 in occ && PairFires(occ, n1, n2) :: Narrowing({n1, n2}, occ[n1])
  }

  lemma PairsForStep(occ: map<int, set<int>>, n1: int, ns: set<int>, n2: int)
    requires n1 in occ && n2 in occ && ns <= occ.Keys
    ensures PairsFor(occ, n1, ns + {n2}) ==
      PairsFor(occ, n1, ns) + (if PairFires(occ, n1, n2) then {Narrowing({n1, n2}, occ[n1])} else {})
  {
  }

  lemma PairActionsStep(occ: map<int, set<int>>, ns: set<int>, n1: int)
    requires n1 in occ && ns <= occ.Keys
    ensures PairActions(occ, ns + {n1}) == PairActions(occ, ns) + PairsFor(occ, n1, occ.Keys)
  {
  }

  /** DR2_2.apply_hidden_rule on one group's occurrence map. */
  method HiddenPairs(g: Grid, occ: map<int, set<int>>, changed: bool) returns (ch: bool)
    requires g.Shape() && Indexed(occ)
    modifies g.notes
    ensures g.State() == Narrowed(old(g.State()), PairActions(occ, occ.Keys))
    ensures Progress(old(g.State()), g.State(), changed, ch)
  {
    ghost var b := g.State();
    var rest := occ.Keys;
    ch := changed;
    NarrowedNone(b);
    assert occ.Keys - rest == {};
    assert PairActions(occ, {}) == {};
    while rest != {}
      invariant rest <= occ.Keys
      invariant g.State() == Narrowed(b, PairActions(occ, occ.Keys - rest))
      invariant Progress(b, g.State(), changed, ch)
      decreases |rest|
    {
      NoMembers(rest);
      var n1 :| n1 in rest;
      ghost var before := g.State();
      ghost var ch0 := ch;
      if |occ[n1]| == 2 {
        ch := PairsWithFirst(g, occ, n1, ch);
      } else {
        assert PairsFor(occ, n1, occ.Keys) == {};
        NarrowedNone(before);
        assert Shrinks(before, before);
      }
      NarrowedUnion(b, PairActions(occ, occ.Keys - rest), PairsFor(occ, n1, occ.Keys));
      PairActionsStep(occ, occ.Keys - rest, n1);
      assert occ.Keys - (rest - {n1}) == (occ.Keys - rest) + {n1};
      ProgressTrans(b, before, g.State(), changed, ch0, ch);
      rest := rest - {n1};
    }
    assert occ.Keys - rest == occ.Keys;
  }

  /** The inner loop of DR2_2.apply_hidden_rule for note_1 = n1. */
  method PairsWithFirst(g: Grid, occ: map<int, set<int>>, n1: int, changed: bool) returns (ch: bool)
    requires g.Shape() && Indexed(occ) && n1 in occ
    modifies g.notes
    ensures g.State() == Narrowed(old(g.State()), PairsFor(occ, n1, occ.Keys))
    ensures Progress(old(g.State()), g.State(), changed, ch)
  {
    ghost var b := g.State();
    var rest := occ.Keys;
    ch := changed;
    NarrowedNone(b);
    assert occ.Keys - rest == {};
    assert PairsFor(occ, n1, {}) == {};
    while rest != {}
      invariant rest <= occ.Keys
      invariant g.State() == Narrowed(b, PairsFor(occ, n1, occ.Keys - rest))
      invariant Progress(b, g.State(), changed, ch)
      decreases |rest|
    {
      NoMembers(rest);
      var n2 :| n2 in rest;
      ghost var before := g.State();
      ghost var ch0 := ch;
      ch := PairStep(g, occ, n1, n2, ch);
      NarrowedUnion(b, PairsFor(occ, n1, occ.Keys - rest), PairsFor(occ, n1, {n2}));
      PairsForStep(occ, n1, occ.Keys - rest, n2);
      assert PairsFor(occ, n1, (occ.Keys - rest) + {n2}) == PairsFor(occ, n1, occ.Keys - rest) + PairsFor(occ, n1, {n2});
      assert occ.Keys - (rest - {n2}) == (occ.Keys - rest) + {n2};
      ProgressTrans(b, before, g.State(), changed, ch0, ch);
      rest := rest - {n2};
    }
    assert occ.Keys - rest == occ.Keys;
  }

  /** The body of the inner loop of DR2_2.apply_hidden_rule for notes n1 and n2. */
  method PairStep(g: Grid, occ: map<int, set<int>>, n1: int, n2: int, changed: bool) returns (ch: bool)
    requires g.Shape() && Indexed(occ) && n1 in occ && n2 in occ
    modifies g.notes
    ensures g.State() == Narrowed(old(g.State()), PairsFor(occ, n1, {n2}))
    ensures Progress(old(g.State()), g.State(), changed, ch)
  {
    ghost var b := g.State();
    var cells1, cells2 := occ[n1], occ[n2];
    if n2 != n1 && n1 < n2 && |cells2| == 2 && cells1 == cells2 && |cells1 + cells2| == 2 {
      assert PairsFor(occ, n1, {n2}) == {Narrowing({n1, n2}, cells1)};
      ch := NarrowCells(g, cells1, {n1, n2}, changed);
      NarrowProgress(b, Narrowing({n1, n2}, cells1), changed, ch);
    } else {
      ch := changed;
      assert PairsFor(occ, n1, {n2}) == {};
      NarrowedNone(b);
      assert Shrinks(b, b);
    }
  }

  // ---------------------------------------------------------------------------
  // DR2_3: hidden triples

  /** Three distinct notes, each held by two or three cells, pairwise sharing a cell,
      and held together by exactly three cells. */
  predicate TripleFires(occ: map<int, set<int>>, n1: int, n2: int, n3: int)
    requires n1 in occ && n2 in occ && n3 in occ
  {
    2 <= |occ[n1]| <= 3 &&
    n2 != n1 && 2 <= |occ[n2]| <= 3 && 0 < |occ[n1] * occ[n2]| <= 3 &&
    n3 != n1 && n3 != n2 && 2 <= |occ[n3]| <= 3 &&
    0 < |occ[n1] * occ[n3]| <= 3 && 0 < |occ[n2] * occ[n3]| <= 3 &&
    |occ[n1] + occ[n2] + occ[n3]| == 3
  }

  /** The three cells' notes are intersected with the three notes. */
  function TripleOf(occ: map<int, set<int>>, n1: int, n2: int, n3: int): Narrowing
    requires n1 in occ && n2 in occ && n3 in occ
  {
    Narrowing({n1, n2, n3}, occ[n1] + occ[n2] + occ[n3])
  }

  /** The narrowings of the innermost loop for note_1 = n1 and note_2 = n2. */
  function ThirdsFor(occ: map<int, set<int>>, n1: int, n2: int, ns: set<int>): set<Narrowing>
    requires n1 in occ && n2 in occ && ns <= occ.Keys
  {
    set n3 | n3 in ns && TripleFires(occ, n1, n2, n3) :: TripleOf(occ, n1, n2, n3)
  }

  /** The narrowings of the middle loop for note_1 = n1. */
  function SecondsFor(occ: map<int, set<int>>, n1: int, ns: set<int>): set<Narrowing>
    requires n1 in occ && ns <= occ.Keys
  {
    set n2, n3 | n2 in ns && n3 in occ && TripleFires(occ, n1, n2, n3) :: TripleOf(occ, n1, n2, n3)
  }

  /** The narrowings of the outer loop over the notes ns. */
  function TripleActions(occ: map<int, set<int>>, ns: set<int>): set<Narrowing>
    requires ns <= occ.Keys
  {
    set n1, n2, n3 | n1 in ns && n2 in occ && n3 in occ && TripleFires(occ, n1, n2, n3) :: TripleOf(occ, n1, n2, n3)
  }

  lemma ThirdsForStep(occ: map<int, set<int>>, n1: int, n2: int, ns: set<int>, n3: int)
    requires n1 in occ && n2 in occ && n3 in occ && ns <= occ.Keys
    ensures ThirdsFor(occ, n1, n2, ns + {n3}) == ThirdsFor(occ, n1, n2, ns) + ThirdsFor(occ, n1, n2, {n3})
  {
  }

  lemma SecondsForStep(occ: map<int, set<int>>, n1: int, ns: set<int>, n2: int)
    requires n1 in occ && n2 in occ && ns <= occ.Keys
    ensures SecondsFor(occ, n1, ns + {n2}) == SecondsFor(occ, n1, ns) + ThirdsFor(occ, n1, n2, occ.Keys)
  {
  }

  lemma TripleActionsStep(occ: map<int, set<int>>, ns: set<int>, n1: int)
    requires n1 in occ && ns <= occ.Keys
    ensures TripleActions(occ, ns + {n1}) == TripleActions(occ, ns) + SecondsFor(occ, n1, occ.Keys)
  {
  }

  /** DR2_3.apply_hidden_rule on one group's occurrence map. */
  method HiddenTriples(g: Grid, occ: map<int, set<int>>, changed: bool) returns (ch: bool)
    requires g.Shape() && Indexed(occ)
    modifies g.notes
    ensures g.State() == Narrowed(old(g.State()), TripleActions(occ, occ.Keys))
    ensures Progress(old(g.State()), g.State(), changed, ch)
  {
    ghost var b := g.State();
    var rest := occ.Keys;
    ch := changed;
    NarrowedNone(b);
    assert occ.Keys - rest == {};
    assert TripleActions(occ, {}) == {};
    while rest != {}
      invariant rest <= occ.Keys
      invariant g.State() == Narrowed(b, TripleActions(occ, occ.Keys - rest))
      invariant Progress(b, g.State(), changed, ch)
      decreases |rest|
    {
      NoMembers(rest);
      var n1 :| n1 in rest;
      ghost var before := g.State();
      ghost var ch0 := ch;
      ch := TriplesWithFirst(g, occ, n1, ch);
      NarrowedUnion(b, TripleActions(occ, occ.Keys - rest), SecondsFor(occ, n1, occ.Keys));
      TripleActionsStep(occ, occ.Keys - rest, n1);
      assert occ.Keys - (rest - {n1}) == (occ.Keys - rest) + {n1};
      ProgressTrans(b, before, g.State(), changed, ch0, ch);
      rest := rest - {n1};
    }
    assert occ.Keys - rest == occ.Keys;
  }

  /** The middle loop of DR2_3.apply_hidden_rule, for note_1 = n1. */
  method TriplesWithFirst(g: Grid, occ: map<int, set<int>>, n1: int, changed: bool) returns (ch: bool)
    requires g.Shape() && Indexed(occ) && n1 in occ
    modifies g.notes
    ensures g.State() == Narrowed(old(g.State()), SecondsFor(occ, n1, occ.Keys))
    ensures Progress(old(g.State()), g.State(), changed, ch)
  {
    ghost var b := g.State();
    ch := changed;
    NarrowedNone(b);
    if !(2 <= |occ[n1]| <= 3) {
      assert SecondsFor(occ, n1, occ.Keys) == {};
      assert Shrinks(b, b);
      return;
    }
    var rest := occ.Keys;
    assert occ.Keys - rest == {};
    assert SecondsFor(occ, n1, {}) == {};
    while rest != {}
      invariant rest <= occ.Keys
      invariant g.State() == Narrowed(b, SecondsFor(occ, n1, occ.Keys - rest))
      invariant Progress(b, g.State(), changed, ch)
      decreases |rest|
    {
      NoMembers(rest);
      var n2 :| n2 in rest;
      ghost var before := g.State();
      ghost var ch0 := ch;
      ch := TriplesWithSecond(g, occ, n1, n2, ch);
      NarrowedUnion(b, SecondsFor(occ, n1, occ.Keys - rest), ThirdsFor(occ, n1, n2, occ.Keys));
      SecondsForStep(occ, n1, occ.Keys - rest, n2);
      assert occ.Keys - (rest - {n2}) == (occ.Keys - rest) + {n2};
      ProgressTrans(b, before, g.State(), changed, ch0, ch);
      rest := rest - {n2};
    }
    assert occ.Keys - rest == occ.Keys;
  }

  /** The innermost loop of DR2_3.apply_hidden_rule, for note_1 = n1 and note_2 = n2. */
  method TriplesWithSecond(g: Grid, occ: map<int, set<int>>, n1: int, n2: int, changed: bool) returns (ch: bool)
    requires g.Shape() && Indexed(occ) && n1 in occ && n2 in occ && 2 <= |occ[n1]| <= 3
    modifies g.notes
    ensures g.State() == Narrowed(old(g.State()), ThirdsFor(occ, n1, n2, occ.Keys))
    ensures Progress(old(g.State()), g.State(), changed, ch)
  {
    ghost var b := g.State();
    ch := changed;
    NarrowedNone(b);
    var cells1, cells2 := occ[n1], occ[n2];
    if !(n2 != n1 && 2 <= |cells2| <= 3 && 0 < |cells1 * cells2| <= 3) {
      assert ThirdsFor(occ, n1, n2, occ.Keys) == {};
      assert Shrinks(b, b);
      return;
    }
    var rest := occ.Keys;
    assert occ.Keys - rest == {};
    assert ThirdsFor(occ, n1, n2, {}) == {};
    while rest != {}
      invariant rest <= occ.Keys
      invariant g.State() == Narrowed(b, ThirdsFor(occ, n1, n2, occ.Keys - rest))
      invariant Progress(b, g.State(), changed, ch)
      decreases |rest|
    {
      NoMembers(rest);
      var n3 :| n3 in rest;
      ghost var before := g.State();
      ghost var ch0 := ch;
      ch := TripleStep(g, occ, n1, n2, n3, ch);
      NarrowedUnion(b, ThirdsFor(occ, n1, n2, occ.Keys - rest), ThirdsFor(occ, n1, n2, {n3}));
      ThirdsForStep(occ, n1, n2, occ.Keys - rest, n3);
      assert occ.Keys - (rest - {n3}) == (occ.Keys - rest) + {n3};
      ProgressTrans(b, before, g.State(), changed, ch0, ch);
      rest := rest - {n3};
    }
    assert occ.Keys - rest == occ.Keys;
  }

  /** The body of the innermost loop: the third note's test, then the narrowing of the
      cells involved when there are exactly three of them. */
  method TripleStep(g: Grid, occ: map<int, set<int>>, n1: int, n2: int, n3: int, changed: bool) returns (ch: bool)
    requires g.Shape() && Indexed(occ) && n1 in occ && n2 in occ && n3 in occ
    requires n2 != n1 && 2 <= |occ[n1]| <= 3 && 2 <= |occ[n2]| <= 3 && 0 < |occ[n1] * occ[n2]| <= 3
    modifies g.notes
    ensures g.State() == Narrowed(old(g.State()), ThirdsFor(occ, n1, n2, {n3}))
    ensures Progress(old(g.State()), g.State(), changed, ch)
  {
    ghost var b := g.State();
    var cells1, cells2, cells3 := occ[n1], occ[n2], occ[n3];
    if n3 != n1 && n3 != n2 && 2 <= |cells3| <= 3 && 0 < |cells1 * cells3| <= 3 && 0 < |cells2 * cells3| <= 3 {
      var involved := cells1 + cells2 + cells3;
      if |involved| == 3 {
        assert ThirdsFor(occ, n1, n2, {n3}) == {Narrowing({n1, n2, n3}, involved)};
        ch := NarrowCells(g, involved, {n1, n2, n3}, changed);
        NarrowProgress(b, Narrowing({n1, n2, n3}, involved), changed, ch);
        return;
      }
    }
    ch := changed;
    assert ThirdsFor(occ, n1, n2, {n3}) == {};
    NarrowedNone(b);
    assert Shrinks(b, b);
  }

  // ---------------------------------------------------------------------------
  // DR2_1: hidden singles

  /** One note of the map: a note held by a single cell that is still empty is
      assigned to it. */
  function HiddenSingle(b: Board, cells: set<int>, v: int, changed: bool): Pass
    requires forall c :: c in cells ==> IsIndex(c)
  {
    if |cells| != 1 then Pass(changed, b)
    else
      var c := Only(cells);
      assert c in cells;
      assert IsIndex(c);
      if b.vals[c] == Empty then Pass(true, Assign(b, c, v)) else Pass(changed, b)
  }

  /** The loop of DR2_1.apply_hidden_rule over the notes still to visit, taken in
      ascending order. */
  function SinglesFrom(b: Board, occ: map<int, set<int>>, rest: set<int>, changed: bool): Pass
    requires Indexed(occ) && rest <= occ.Keys
    decreases |rest|
  {
    if rest == {} then Pass(changed, b)
    else
      var v := Utils.Least(rest);
      var p := HiddenSingle(b, occ[v], v, changed);
      SinglesFrom(p.board, occ, rest - {v}, p.changed)
  }

  /** DR2_1.apply_hidden_rule on one group's occurrence map. */
  method HiddenSingles(g: Grid, occ: map<int, set<int>>, changed: bool) returns (ch: bool)
    requires g.Shape() && Indexed(occ)
    modifies g.vals, g.notes
    ensures Pass(ch, g.State()) == SinglesFrom(old(g.State()), occ, occ.Keys, changed)
  {
    var rest := occ.Keys;
    ch := changed;
    while rest != {}
      invariant rest <= occ.Keys
      invariant SinglesFrom(g.State(), occ, rest, ch) == SinglesFrom(old(g.State()), occ, occ.Keys, changed)
      decreases |rest|
    {
      var v := Utils.Least(rest);
      var cells := occ[v];
      if |cells| == 1 {
        var c := Only(cells);
        assert c in cells;
        assert IsIndex(c);
        if g.vals[c] == Empty {
          var _ := g.SetValue(c, v);
          ch := true;
        }
      }
      rest := rest - {v};
    }
  }

  // ---------------------------------------------------------------------------
  // DR2._apply_rule

  /** One group: its occurrence map is computed, then the rule runs on it. */
  function HiddenGroup(hk: HiddenKind, b: Board, group: seq<int>, changed: bool): Pass
    requires AllIndices(group)
  {
    var occ := Occurrences(b, group);
    match hk
    case Singles => SinglesFrom(b, occ, occ.Keys, changed)
    case Pairs => Narrow(b, PairActions(occ, occ.Keys), changed)
    case Triples => Narrow(b, TripleActions(occ, occ.Keys), changed)
  }

  /** Narrowing as a step: the flag is raised when the board changes. */
  function Narrow(b: Board, acts: set<Narrowing>, changed: bool): Pass
  {
    var n := Narrowed(b, acts);
    Pass(changed || n != b, n)
  }

  /** The groups of one view from the gi-th on. */
  function HiddenGroups(hk: HiddenKind, kind: UnitKind, b: Board, gi: int, changed: bool): Pass
    requires 0 <= gi <= 9
    decreases 9 - gi
  {
    if gi == 9 then Pass(changed, b)
    else
      var p := HiddenGroup(hk, b, Group(kind, gi), changed);
      HiddenGroups(hk, kind, p.board, gi + 1, p.changed)
  }

  /** The views from the k-th on: rows, then columns, then zones, all of them. */
  function HiddenFrom(hk: HiddenKind, b: Board, k: int, changed: bool): Pass
    requires 0 <= k <= 3
    decreases 3 - k
  {
    if k == 3 then Pass(changed, b)
    else
      var p := HiddenGroups(hk, KindAt(k), b, 0, changed);
      HiddenFrom(hk, p.board, k + 1, p.changed)
  }

  /** One application of the rule, started with has_changed reset. */
  function HiddenRule(hk: HiddenKind, b: Board): Pass
  {
    HiddenFrom(hk, b, 0, false)
  }

  /** The body of DR2._apply_rule for one group. */
  method HiddenGroupStep(g: Grid, hk: HiddenKind, group: seq<int>, changed: bool) returns (ch: bool)
    requires g.Shape() && AllIndices(group)
    modifies g.vals, g.notes
    ensures Pass(ch, g.State()) == HiddenGroup(hk, old(g.State()), group, changed)
  {
    var occ := GetNotesOccurences(g, group);
    match hk {
      case Singles =>
        ch := HiddenSingles(g, occ, changed);
      case Pairs =>
        ch := HiddenPairs(g, occ, changed);
      case Triples =>
        ch := HiddenTriples(g, occ, changed);
    }
  }

  /** DR2._apply_rule: every group of every view, in order. */
  method ApplyHidden(g: Grid, hk: HiddenKind, changed: bool) returns (ch: bool)
    requires g.Shape()
    modifies g.vals, g.notes
    ensures Pass(ch, g.State()) == HiddenFrom(hk, old(g.State()), 0, changed)
  {
    ch := changed;
    for k := 0 to 3
      invariant HiddenFrom(hk, g.State(), k, ch) == HiddenFrom(hk, old(g.State()), 0, changed)
    {
      ch := HiddenView(g, hk, k, ch);
    }
  }

  /** The inner loop of DR2._apply_rule over the groups of view k. */
  method HiddenView(g: Grid, hk: HiddenKind, k: int, changed: bool) returns (ch: bool)
    requires g.Shape() && 0 <= k < 3
    modifies g.vals, g.notes
    ensures Pass(ch, g.State()) == HiddenGroups(hk, KindAt(k), old(g.State()), 0, changed)
  {
    var view := g.View(k);
    ch := changed;
    for gi := 0 to 9
      invariant HiddenGroups(hk, KindAt(k), g.State(), gi, ch) == HiddenGroups(hk, KindAt(k), old(g.State()), 0, changed)
    {
      ch := HiddenGroupStep(g, hk, view[gi], ch);
    }
  }

  // ---------------------------------------------------------------------------
  // What a pass does

  /** b follows from bg by hidden singles of the group: it shrinks, and every cell it
      fills holds a value that, in bg, was a note of that cell and of no other empty
      cell of the group. */
  predicate Placed(bg: Board, group: seq<int>, b: Board)
  {
    Shrinks(bg, b) &&
    forall i :: 0 <= i < CellCount && bg.vals[i] == Empty && b.vals[i] != Empty ==>
      Holders(bg, group, b.vals[i]) == {i}
  }

  lemma PlacedDeduced(bg: Board, group: seq<int>, b: Board)
    requires Placed(bg, group, b)
    ensures Deduced(bg, b)
  {
    forall i | 0 <= i < CellCount && bg.vals[i] == Empty && b.vals[i] != Empty
      ensures b.vals[i] in bg.notes[i]
    {
      assert i in Holders(bg, group, b.vals[i]);
    }
  }

  /** One note of the hidden singles loop keeps the pass a deduction and a progress
      step; the map is the one computed on bg. */
  lemma HiddenSingleSound(bg: Board, group: seq<int>, b: Board, v: int, changed: bool)
    requires Valid(bg) && v in Occurrences(bg, group) && Placed(bg, group, b)
    ensures var p := HiddenSingle(b, Occurrences(bg, group)[v], v, changed);
      Placed(bg, group, p.board) && Progress(b, p.board, changed, p.changed)
  {
    var cells := Occurrences(bg, group)[v];
    if |cells| == 1 && b.vals[Only(cells)] == Empty {
      var c := Only(cells);
      assert c in Holders(bg, group, v);
      assert v in Digits;
      var a := Assign(b, c, v);
      AssignShrinks(b, c, v);
      forall i | 0 <= i < CellCount && i != c ensures a.vals[i] == b.vals[i] {
        AssignEffect(b, c, v, i);
      }
      assert a.vals[c] == v;
    } else {
      assert Shrinks(b, b);
    }
  }

  lemma {:induction false} SinglesFromSound(bg: Board, group: seq<int>, b: Board, rest: set<int>, changed: bool)
    requires Valid(bg) && rest <= Occurrences(bg, group).Keys && Placed(bg, group, b)
    ensures var p := SinglesFrom(b, Occurrences(bg, group), rest, changed);
      Placed(bg, group, p.board) && Progress(b, p.board, changed, p.changed)
    decreases |rest|
  {
    if rest != {} {
      var occ := Occurrences(bg, group);
      var v := Utils.Least(rest);
      var p := HiddenSingle(b, occ[v], v, changed);
      HiddenSingleSound(bg, group, b, v, changed);
      var q := SinglesFrom(p.board, occ, rest - {v}, p.changed);
      SinglesFromSound(bg, group, p.board, rest - {v}, p.changed);
      ProgressTrans(b, p.board, q.board, changed, p.changed, q.changed);
    } else {
      assert Shrinks(b, b);
    }
  }

  /** Until something is assigned the board is the one the map was computed on, so the
      loop assigns something exactly when some note has a single cell. */
  lemma {:induction false} SinglesFromFires(bg: Board, group: seq<int>, b: Board, rest: set<int>, changed: bool)
    requires Valid(bg) && rest <= Occurrences(bg, group).Keys && Placed(bg, group, b)
    requires !changed ==> b == bg
    ensures SinglesFrom(b, Occurrences(bg, group), rest, changed).changed <==>
      changed || exists v :: v in rest && |Occurrences(bg, group)[v]| == 1
    decreases |rest|
  {
    if rest != {} {
      var occ := Occurrences(bg, group);
      var v := Utils.Least(rest);
      var p := HiddenSingle(b, occ[v], v, changed);
      HiddenSingleSound(bg, group, b, v, changed);
      if |occ[v]| == 1 {
        SinglesFromSound(bg, group, p.board, rest - {v}, p.changed);
        if !changed {
          assert Only(occ[v]) in Holders(bg, group, v);
        }
      } else {
        SinglesFromFires(bg, group, b, rest - {v}, changed);
      }
    }
  }

  /** Hidden singles on a group reports a change exactly when it started with the flag
      set or some note is held by exactly one empty cell of the group. */
  lemma HiddenSinglesFire(b: Board, group: seq<int>, changed: bool)
    requires AllIndices(group) && Valid(b)
    ensures HiddenGroup(Singles, b, group, changed).changed <==>
      changed || exists v :: |Holders(b, group, v)| == 1
  {
    var occ := Occurrences(b, group);
    assert Shrinks(b, b);
    SinglesFromFires(b, group, b, occ.Keys, changed);
    if exists v :: |Holders(b, group, v)| == 1 {
      var v :| |Holders(b, group, v)| == 1;
      var c := Only(Holders(b, group, v));
      OccurrencesIff(b, group, v);
      assert c in Holders(b, group, v);
      assert v in occ.Keys;
    }
  }

  /** Every cell hidden singles fills on a group takes a value that was a note of
      that cell and of no other empty cell of the group. */
  lemma HiddenSinglesPlaced(b: Board, group: seq<int>, changed: bool)
    requires AllIndices(group) && Valid(b)
    ensures Placed(b, group, HiddenGroup(Singles, b, group, changed).board)
  {
    assert Shrinks(b, b);
    SinglesFromSound(b, group, b, Occurrences(b, group).Keys, changed);
  }

  /** The cells a group's pairs or triples narrow are cells of the group. */
  lemma ActionsInGroup(b: Board, group: seq<int>)
    ensures forall a, c :: a in PairActions(Occurrences(b, group), Occurrences(b, group).Keys) && c in a.cells ==> c in group
    ensures forall a, c :: a in TripleActions(Occurrences(b, group), Occurrences(b, group).Keys) && c in a.cells ==> c in group
  {
  }

  /** Hidden pairs and triples change no value and no cell outside the group, and only
      remove notes. */
  lemma HiddenNarrowLocal(hk: HiddenKind, b: Board, group: seq<int>, changed: bool)
    requires AllIndices(group) && hk != Singles
    ensures HiddenGroup(hk, b, group, changed).board.vals == b.vals
    ensures Shrinks(b, HiddenGroup(hk, b, group, changed).board)
    ensures forall c :: IsIndex(c) && c !in group ==> HiddenGroup(hk, b, group, changed).board.notes[c] == b.notes[c]
  {
    var occ := Occurrences(b, group);
    ActionsInGroup(b, group);
    if hk == Pairs {
      NarrowedEffect(b, PairActions(occ, occ.Keys));
    } else {
      NarrowedEffect(b, TripleActions(occ, occ.Keys));
    }
  }

  /** A hidden pair: two notes held by the same two empty cells of the group and by no
      other leave those cells with no note outside the pair. */
  lemma HiddenPairEffect(b: Board, group: seq<int>, n1: int, n2: int, changed: bool)
    requires AllIndices(group)
    requires n1 < n2 && |Holders(b, group, n1)| == 2 && Holders(b, group, n1) == Holders(b, group, n2)
    ensures forall c :: c in Holders(b, group, n1) ==> HiddenGroup(Pairs, b, group, changed).board.notes[c] <= {n1, n2}
  {
    var occ := Occurrences(b, group);
    assert Holders(b, group, n1) != {};
    var c :| c in Holders(b, group, n1);
    OccurrencesIff(b, group, n1);
    OccurrencesIff(b, group, n2);
    assert occ[n1] + occ[n2] == occ[n1];
    assert PairFires(occ, n1, n2);
    assert Narrowing({n1, n2}, occ[n1]) in PairActions(occ, occ.Keys);
    NarrowedEffect(b, PairActions(occ, occ.Keys));
  }

  /** A hidden triple: three notes each held by two or three empty cells of the group,
      pairwise sharing a cell and together held by exactly three, leave those three
      cells with no note outside the triple. */
  lemma HiddenTripleEffect(b: Board, group: seq<int>, n1: int, n2: int, n3: int, changed: bool)
    requires AllIndices(group)
    requires var occ := Occurrences(b, group); n1 in occ && n2 in occ && n3 in occ && TripleFires(occ, n1, n2, n3)
    ensures var occ := Occurrences(b, group);
      forall c :: c in occ[n1] + occ[n2] + occ[n3] ==> HiddenGroup(Triples, b, group, changed).board.notes[c] <= {n1, n2, n3}
  {
    var occ := Occurrences(b, group);
    assert TripleOf(occ, n1, n2, n3) in TripleActions(occ, occ.Keys);
    NarrowedEffect(b, TripleActions(occ, occ.Keys));
  }

  /** Some cell the narrowing names holds a note outside its keep set. */
  predicate Strikes(b: Board, a: Narrowing)
  {
    exists c :: c in a.cells && IsIndex(c) && !(b.notes[c] <= a.keep)
  }

  lemma StrikesIff(b: Board, acts: set<Narrowing>)
    ensures Narrowed(b, acts) != b <==> exists a :: a in acts && Strikes(b, a)
  {
    NarrowedChanged(b, acts);
  }

  /** Hidden pairs reports a change exactly when it started with the flag set or a
      firing pair's cells held some other note. */
  lemma HiddenPairsChanged(b: Board, group: seq<int>, changed: bool)
    requires AllIndices(group)
    ensures var occ := Occurrences(b, group);
      HiddenGroup(Pairs, b, group, changed).changed <==> (changed ||
        exists n1, n2 :: n1 in occ && n2 in occ && PairFires(occ, n1, n2) && Strikes(b, Narrowing({n1, n2}, occ[n1])))
  {
    var occ := Occurrences(b, group);
    var acts := PairActions(occ, occ.Keys);
    StrikesIff(b, acts);
    if exists a :: a in acts && Strikes(b, a) {
      var a :| a in acts && Strikes(b, a);
      var n1, n2 :| n1 in occ && n2 in occ && PairFires(occ, n1, n2) && a == Narrowing({n1, n2}, occ[n1]);
    }
  }

  /** Hidden triples reports a change exactly when it started with the flag set or a
      firing triple's cells held some other note. */
  lemma HiddenTriplesChanged(b: Board, group: seq<int>, changed: bool)
    requires AllIndices(group)
    ensures var occ := Occurrences(b, group);
      HiddenGroup(Triples, b, group, changed).changed <==> (changed ||
        exists n1, n2, n3 :: n1 in occ && n2 in occ && n3 in occ && TripleFires(occ, n1, n2, n3) &&
          Strikes(b, TripleOf(occ, n1, n2, n3)))
  {
    var occ := Occurrences(b, group);
    var acts := TripleActions(occ, occ.Keys);
    StrikesIff(b, acts);
    if exists a :: a in acts && Strikes(b, a) {
      var a :| a in acts && Strikes(b, a);
      var n1, n2, n3 :| n1 in occ && n2 in occ && n3 in occ && TripleFires(occ, n1, n2, n3) && a == TripleOf(occ, n1, n2, n3);
    }
  }

  // ---------------------------------------------------------------------------
  // The whole rule

  /** What a hidden rule may do to a board: fill empty cells with one of their notes
      (pairs and triples fill none), shrink notes, and report a change exactly when it
      started with the flag set or the board changed. */
  predicate Sound(hk: HiddenKind, b: Board, p: Pass, changed: bool)
  {
    Deduced(b, p.board) && (hk != Singles ==> p.board.vals == b.vals) && Progress(b, p.board, changed, p.changed)
  }

  lemma SoundTrans(hk: HiddenKind, b: Board, p1: Pass, p2: Pass, changed: bool)
    requires Sound(hk, b, p1, changed) && Sound(hk, p1.board, p2, p1.changed)
    ensures Sound(hk, b, p2, changed)
  {
    DeducedTrans(b, p1.board, p2.board);
    ProgressTrans(b, p1.board, p2.board, changed, p1.changed, p2.changed);
  }

  lemma HiddenGroupSound(hk: HiddenKind, b: Board, group: seq<int>, changed: bool)
    requires AllIndices(group) && Valid(b)
    ensures Sound(hk, b, HiddenGroup(hk, b, group, changed), changed)
  {
    if hk == Singles {
      HiddenSinglesPlaced(b, group, changed);
      SinglesFromSound(b, group, b, Occurrences(b, group).Keys, changed);
      PlacedDeduced(b, group, HiddenGroup(hk, b, group, changed).board);
    } else {
      HiddenNarrowLocal(hk, b, group, changed);
    }
  }

  lemma {:induction false} HiddenGroupsSound(hk: HiddenKind, kind: UnitKind, b: Board, gi: int, changed: bool)
    requires 0 <= gi <= 9 && Valid(b)
    ensures Sound(hk, b, HiddenGroups(hk, kind, b, gi, changed), changed)
    decreases 9 - gi
  {
    if gi < 9 {
      var p := HiddenGroup(hk, b, Group(kind, gi), changed);
      HiddenGroupSound(hk, b, Group(kind, gi), changed);
      ShrinksValid(b, p.board);
      HiddenGroupsSound(hk, kind, p.board, gi + 1, p.changed);
      SoundTrans(hk, b, p, HiddenGroups(hk, kind, p.board, gi + 1, p.changed), changed);
    } else {
      assert Shrinks(b, b);
    }
  }

  lemma {:induction false} HiddenFromSound(hk: HiddenKind, b: Board, k: int, changed: bool)
    requires 0 <= k <= 3 && Valid(b)
    ensures Sound(hk, b, HiddenFrom(hk, b, k, changed), changed)
    decreases 3 - k
  {
    if k < 3 {
      var p := HiddenGroups(hk, KindAt(k), b, 0, changed);
      HiddenGroupsSound(hk, KindAt(k), b, 0, changed);
      ShrinksValid(b, p.board);
      HiddenFromSound(hk, p.board, k + 1, p.changed);
      SoundTrans(hk, b, p, HiddenFrom(hk, p.board, k + 1, p.changed), changed);
    } else {
      assert Shrinks(b, b);
    }
  }

  /** On a board whose notes are digits, a hidden rule only shrinks notes and, for
      singles, fills cells with one of their notes; pairs and triples never change a
      value; its flag says exactly whether the board changed. */
  lemma HiddenRuleSound(hk: HiddenKind, b: Board)
    requires Valid(b)
    ensures Deduced(b, HiddenRule(hk, b).board)
    ensures hk != Singles ==> HiddenRule(hk, b).board.vals == b.vals
    ensures HiddenRule(hk, b).changed <==> HiddenRule(hk, b).board != b
  {
    HiddenFromSound(hk, b, 0, false);
  }
}
