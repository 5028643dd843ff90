/** The naked strategies of DR1: naked singles (DR1_1), naked pairs (DR1_2) and naked
    triples (DR1_3).  Each is a function from a board to an Effect, and a method on the
    Grid arena is proved to follow it; the lemmas at the end state what a pass does
    independently of the order in which it visits cells. */
module NakedRules {
  import opened Cells
  import opened Results
  import opened Boards
  import opened Grids
  import Utils

  datatype NakedKind = Singles | Pairs | Triples

  // ---------------------------------------------------------------------------
  // Cell lists

  /** [cell for cell in cells if cell.val == -1], over the first n cells. */
  function EmptyCells(vals: seq<int>, cells: seq<int>, n: int): (r: seq<int>)
    requires |vals| == CellCount && AllIndices(cells) && 0 <= n <= |cells|
    ensures AllIndices(r)
  {
    if n == 0 then []
    else
      EmptyCells(vals, cells, n - 1) + (if vals[cells[n - 1]] == Empty then [cells[n - 1]] else [])
  }

  /** [cell for cell in cells if lo <= len(cell.notes) <= hi], over the first n cells. */
  function Candidates(b: Board, cells: seq<int>, lo: int, hi: int, n: int): (r: seq<int>)
    requires AllIndices(cells) && 0 <= n <= |cells|
    ensures AllIndices(r)
  {
    if n == 0 then []
    else
      Candidates(b, cells, lo, hi, n - 1) + (if lo <= |b.notes[cells[n - 1]]| <= hi then [cells[n - 1]] else [])
  }

  /** The empty cells kept are exactly the empty ones among the first n. */
  lemma {:induction false} EmptyCellsIff(vals: seq<int>, cells: seq<int>, n: int)
    requires |vals| == CellCount && AllIndices(cells) && 0 <= n <= |cells|
    ensures forall c :: c in EmptyCells(vals, cells, n) <==> c in cells[..n] && vals[c] == Empty
  {
    if n > 0 {
      EmptyCellsIff(vals, cells, n - 1);
      assert cells[..n] == cells[..n - 1] + [cells[n - 1]];
    }
  }

  /** The candidates kept are exactly the cells among the first n with lo..hi notes. */
  lemma {:induction false} CandidatesIff(b: Board, cells: seq<int>, lo: int, hi: int, n: int)
    requires AllIndices(cells) && 0 <= n <= |cells|
    ensures forall c :: c in Candidates(b, cells, lo, hi, n) <==> c in cells[..n] && lo <= |b.notes[c]| <= hi
  {
    if n > 0 {
      CandidatesIff(b, cells, lo, hi, n - 1);
      assert cells[..n] == cells[..n - 1] + [cells[n - 1]];
    }
  }

  // ---------------------------------------------------------------------------
  // find_naked_pairs

  /** The pairs appended while `c` is the outer candidate, for the first j inner ones. */
  function PairsWith(b: Board, c: int, cands: seq<int>, j: int): seq<seq<int>>
    requires IsIndex(c) && AllIndices(cands) && 0 <= j <= |cands|
  {
    if j == 0 then []
    else
      var o := cands[j - 1];
      PairsWith(b, c, cands, j - 1) + (if c != o && b.notes[c] == b.notes[o] then [[c, o]] else [])
  }

  /** The pairs appended by outer iteration i. */
  function PairsOf(b: Board, cands: seq<int>): int -> seq<seq<int>>
    requires AllIndices(cands)
  {
    i => if 0 <= i < |cands| then PairsWith(b, cands[i], cands, |cands|) else []
  }

  /** The pairs appended by the first k outer iterations. */
  function PairsFrom(b: Board, cands: seq<int>, k: int): seq<seq<int>>
    requires AllIndices(cands) && 0 <= k <= |cands|
  {
    Utils.Concat(PairsOf(b, cands), k)
  }

  /** find_naked_pairs: both orders of every two distinct cells with the same two notes. */
  function NakedPairs(b: Board, cells: seq<int>): seq<seq<int>>
    requires AllIndices(cells)
  {
    var cands := Candidates(b, cells, 2, 2, |cells|);
    PairsFrom(b, cands, |cands|)
  }

  // ---------------------------------------------------------------------------
  // find_naked_triples

  /** Sorted note counts [2, 2, 3] or [2, 2, 2], with the first cell's notes equal to
      the second's or the second's equal to the third's: such a triple is passed over. */
  predicate Skipped(n1: set<int>, n2: set<int>, n3: set<int>)
  {
    SmallCounts(|n1|, |n2|, |n3|) && (n1 == n2 || n2 == n3)
  }

  /** Every count is 2 or 3 and at most one of them is 3. */
  predicate SmallCounts(x: int, y: int, z: int)
  {
    2 <= x <= 3 && 2 <= y <= 3 && 2 <= z <= 3 && x + y + z <= 7
  }

  /** SmallCounts holds exactly when the sorted counts are [2, 2, 3] or [2, 2, 2]. */
  lemma SmallCountsSorted(x: int, y: int, z: int)
    ensures SmallCounts(x, y, z) <==> multiset{x, y, z} == multiset{2, 2, 3} || multiset{x, y, z} == multiset{2, 2, 2}
  {
    var m := multiset{x, y, z};
    if m == multiset{2, 2, 3} || m == multiset{2, 2, 2} {
      assert x in m && y in m && z in m;
      assert m[3] <= 1;
    }
  }

  /** Three distinct cells whose notes together hold exactly three values, unless skipped. */
  predicate IsNakedTriple(b: Board, c1: int, c2: int, c3: int)
    requires IsIndex(c1) && IsIndex(c2) && IsIndex(c3)
  {
    c1 != c2 && c3 != c1 && c3 != c2 &&
    |b.notes[c1] + b.notes[c2] + b.notes[c3]| == 3 &&
    !Skipped(b.notes[c1], b.notes[c2], b.notes[c3])
  }

  /** The test of the innermost loop of find_naked_triples, as a value, so that the
      loop structure below can be reasoned about without unfolding it. */
  function NakedTest(b: Board): (int, int, int) -> bool
  {
    (c1, c2, c3) => IsIndex(c1) && IsIndex(c2) && IsIndex(c3) && IsNakedTriple(b, c1, c2, c3)
  }

  /** The triples appended for outer candidates c1 and c2, for the first j third ones. */
  function TriplesWith(accepts: (int, int, int) -> bool, c1: int, c2: int, cands: seq<int>, j: int): seq<seq<int>>
    requires 0 <= j <= |cands|
  {
    if j == 0 then []
    else
      var c3 := cands[j - 1];
      TriplesWith(accepts, c1, c2, cands, j - 1) + (if accepts(c1, c2, c3) then [[c1, c2, c3]] else [])
  }

  /** The triples appended by middle iteration i for outer candidate c1. */
  function TriplesOf(accepts: (int, int, int) -> bool, c1: int, cands: seq<int>): int -> seq<seq<int>>
  {
    i => if 0 <= i < |cands| then TriplesWith(accepts, c1, cands[i], cands, |cands|) else []
  }

  /** The triples appended for outer candidate c1 by the first k middle iterations. */
  function TriplesMid(accepts: (int, int, int) -> bool, c1: int, cands: seq<int>, k: int): seq<seq<int>>
    requires 0 <= k <= |cands|
  {
    Utils.Concat(TriplesOf(accepts, c1, cands), k)
  }

  /** The triples appended by outer iteration i. */
  function MidsOf(accepts: (int, int, int) -> bool, cands: seq<int>): int -> seq<seq<int>>
  {
    i => if 0 <= i < |cands| then TriplesMid(accepts, cands[i], cands, |cands|) else []
  }

  /** The triples appended by the first k outer iterations. */
  function TriplesFrom(accepts: (int, int, int) -> bool, cands: seq<int>, k: int): seq<seq<int>>
    requires 0 <= k <= |cands|
  {
    Utils.Concat(MidsOf(accepts, cands), k)
  }

  /** find_naked_triples: every ordered triple of distinct cells with two or three notes
      each, whose notes together hold exactly three values, except the skipped ones. */
  function NakedTriples(b: Board, cells: seq<int>): seq<seq<int>>
    requires AllIndices(cells)
  {
    var cands := Candidates(b, cells, 2, 3, |cells|);
    TriplesFrom(NakedTest(b), cands, |cands|)
  }

  function Patterns(nk: NakedKind, b: Board, cells: seq<int>): seq<seq<int>>
    requires nk != Singles && AllIndices(cells)
  {
    if nk == Pairs then NakedPairs(b, cells) else NakedTriples(b, cells)
  }

  // ---------------------------------------------------------------------------
  // Removing a pattern's notes

  /** The row, column or zone index of cell i. */
  function UnitOf(kind: UnitKind, i: int): int
  {
    match kind
    case Rows => RowOf(i)
    case Cols => ColOf(i)
    case Zones => ZoneOf(i)
  }

  /** All the pattern's cells lie in one row (kind Rows), column or zone. */
  predicate Together(kind: UnitKind, cs: seq<int>)
  {
    |cs| > 0 && forall t :: 0 <= t < |cs| ==> UnitOf(kind, cs[t]) == UnitOf(kind, cs[0])
  }

  /** Every pattern has a first cell whose notes it removes. */
  predicate Anchored(ps: seq<seq<int>>)
  {
    forall k :: 0 <= k < |ps| ==> |ps[k]| > 0 && IsIndex(ps[k][0])
  }

  /** related_cells: the scanned group, plus the observer's row, column or zone set of
      the first cell when all the pattern's cells share it, without the pattern's own
      cells and without filled cells. */
  function Related(vals: seq<int>, group: seq<int>, cs: seq<int>): set<int>
    requires |vals| == CellCount && AllIndices(group) && |cs| > 0 && IsIndex(cs[0])
  {
    var related := (set j | j in group) +
      (if Together(Rows, cs) then RowSet(cs[0]) else {}) +
      (if Together(Cols, cs) then ColSet(cs[0]) else {}) +
      (if Together(Zones, cs) then ZoneSet(cs[0]) else {});
    set j | j in related && IsIndex(j) && j !in cs && vals[j] == Empty
  }

  /** A related cell is an empty cell outside the pattern that lies in the scanned
      group, or in the row, column or zone that all the pattern's cells share. */
  lemma RelatedIff(vals: seq<int>, group: seq<int>, cs: seq<int>)
    requires |vals| == CellCount && AllIndices(group) && |cs| > 0 && IsIndex(cs[0])
    ensures forall j :: j in Related(vals, group, cs) <==>
      IsIndex(j) && j !in cs && vals[j] == Empty &&
      (j in group || (Together(Rows, cs) && SameRow(cs[0], j)) ||
       (Together(Cols, cs) && SameCol(cs[0], j)) || (Together(Zones, cs) && SameZone(cs[0], j)))
  {
    forall j ensures j in Related(vals, group, cs) <==>
      IsIndex(j) && j !in cs && vals[j] == Empty &&
      (j in group || (Together(Rows, cs) && SameRow(cs[0], j)) ||
       (Together(Cols, cs) && SameCol(cs[0], j)) || (Together(Zones, cs) && SameZone(cs[0], j)))
    {
      ObserverSetsIff(cs[0], j);
    }
  }

  /** Removing `remove` from notes leaves nothing although something was removed. */
  predicate Empties(notes: set<int>, remove: set<int>)
  {
    notes * remove != {} && notes <= remove
  }

  /** The inner loop over the first cell's notes for one target t: every note of
      `remove` the target holds is taken out; a target left with no notes raises. */
  function Strike(b: Board, t: int, remove: set<int>, changed: bool): (e: Effect)
    requires IsIndex(t)
    ensures e.board.vals == b.vals
    ensures e.board.notes == b.notes[t := b.notes[t] - remove]
    ensures e.result.Err? <==> Empties(b.notes[t], remove)
    ensures e.result.Err? ==> e.result.error == NoteSetEmptied(t)
    ensures e.result.Ok? ==> (e.result.value <==> changed || b.notes[t] * remove != {})
  {
    Drained(b.notes[t], remove);
    if b.notes[t] * remove == {} then
      Disjoint(b.notes[t], remove);
      Effect(Ok(changed), b)
    else
      var after := BoardState(b.vals, b.notes[t := b.notes[t] - remove]);
      if after.notes[t] == {} then Effect(Err(NoteSetEmptied(t)), after) else Effect(Ok(true), after)
  }

  lemma Disjoint(a: set<int>, c: set<int>)
    requires a * c == {}
    ensures a - c == a
  {
    forall x | x in a ensures x !in c {
      assert x !in a * c;
    }
  }

  lemma Untouched(a: set<int>, c: set<int>)
    ensures a * c == {} <==> a - c == a
  {
    if a * c == {} {
      Disjoint(a, c);
    }
    if a - c == a {
      forall x | x in a ensures x !in c {
        assert x in a - c;
      }
      assert a * c == {};
    }
  }

  /** Visiting one more note of `remove` takes it out of the target's notes, if there. */
  lemma StrikeStep(before: set<int>, remove: set<int>, rest: set<int>, note: int)
    requires rest <= remove && note in rest
    ensures before - (remove - (rest - {note})) == before - (remove - rest) - {note}
    ensures note !in before - (remove - rest) ==> before - (remove - (rest - {note})) == before - (remove - rest)
  {
  }

  /** The target's notes run out while `rest` is still to be visited: then all of its
      notes were in `remove`, and at least one was. */
  lemma EmptiedEarly(before: set<int>, remove: set<int>, rest: set<int>, note: int)
    requires rest <= remove && note in rest && note in before - (remove - rest)
    requires before - (remove - rest) - {note} == {}
    ensures before - remove == {} && before * remove != {}
  {
    assert note in before * remove;
    forall x | x in before ensures x in remove {
      assert x !in before - (remove - rest) - {note};
    }
    Drained(before, remove);
  }

  /** The loop over the related cells, visited in ascending index order from j. */
  function StrikeFrom(b: Board, targets: set<int>, remove: set<int>, j: int, changed: bool): (e: Effect)
    requires 0 <= j <= CellCount
    decreases CellCount - j
  {
    if j == CellCount then Effect(Ok(changed), b)
    else if j in targets then
      var e := Strike(b, j, remove, changed);
      if e.result.Err? then e else StrikeFrom(e.board, targets, remove, j + 1, e.result.value)
    else StrikeFrom(b, targets, remove, j + 1, changed)
  }

  /** The patterns of one group, from the k-th on; each removes the first cell's notes,
      as they are when the pattern's turn comes, from its related cells. */
  function ApplyPatterns(b: Board, group: seq<int>, ps: seq<seq<int>>, k: int, changed: bool): (e: Effect)
    requires AllIndices(group) && 0 <= k <= |ps|
    requires Anchored(ps)
    decreases |ps| - k
  {
    if k == |ps| then Effect(Ok(changed), b)
    else
      var e := ApplyPattern(b, group, ps[k], changed);
      if e.result.Err? then e else ApplyPatterns(e.board, group, ps, k + 1, e.result.value)
  }

  /** One pattern: its first cell's current notes leave every related cell. */
  function ApplyPattern(b: Board, group: seq<int>, p: seq<int>, changed: bool): Effect
    requires AllIndices(group) && |p| > 0 && IsIndex(p[0])
  {
    StrikeFrom(b, Related(b.vals, group, p), b.notes[p[0]], 0, changed)
  }

  /** _apply_naked_rule of DR1_2 / DR1_3 on one group: the patterns are found once,
      among the group's empty cells, before any of them is applied. */
  function PatternGroup(nk: NakedKind, b: Board, group: seq<int>, changed: bool): Effect
    requires nk != Singles && AllIndices(group)
  {
    var ps := Patterns(nk, b, EmptyCells(b.vals, group, |group|));
    PatternsAnchored(nk, b, EmptyCells(b.vals, group, |group|));
    ApplyPatterns(b, group, ps, 0, changed)
  }

  /** The groups of one view from the gi-th on, each handled by `step`; an error ends
      the pass, otherwise each group hands its board and flag to the next. */
  function ScanGroups(step: (Board, int, bool) -> Effect, b: Board, gi: int, changed: bool): Effect
    requires 0 <= gi <= 9
    decreases 9 - gi
  {
    if gi == 9 then Effect(Ok(changed), b)
    else
      var e := step(b, gi, changed);
      if e.result.Err? then e else ScanGroups(step, e.board, gi + 1, e.result.value)
  }

  /** The naked pair or triple step on the gi-th group of a view. */
  function PatternStep(nk: NakedKind, kind: UnitKind): (Board, int, bool) -> Effect
    requires nk != Singles
  {
    (b: Board, gi: int, changed: bool) =>
      if 0 <= gi < 9 then PatternGroup(nk, b, Group(kind, gi), changed) else Effect(Ok(changed), b)
  }

  /** The groups of one view from the gi-th on; an error ends the pass. */
  function PatternGroups(nk: NakedKind, kind: UnitKind, b: Board, gi: int, changed: bool): Effect
    requires nk != Singles && 0 <= gi <= 9
  {
    ScanGroups(PatternStep(nk, kind), b, gi, changed)
  }

  // ---------------------------------------------------------------------------
  // DR1_1: naked singles

  /** The groups of one view from the gi-th on, each scanned cell by cell. */
  function SinglesFrom(kind: UnitKind, b: Board, gi: int, changed: bool): Pass
    requires 0 <= gi <= 9
    decreases 9 - gi
  {
    if gi == 9 then Pass(changed, b)
    else
      var p := SinglesIn(b, Group(kind, gi), 0, changed);
      SinglesFrom(kind, p.board, gi + 1, p.changed)
  }

  /** The cells of one group from the t-th on. */
  function SinglesIn(b: Board, group: seq<int>, t: int, changed: bool): Pass
    requires AllIndices(group) && 0 <= t <= |group|
    decreases |group| - t
  {
    if t == |group| then Pass(changed, b)
    else
      var p := Single(b, group[t], changed);
      SinglesIn(p.board, group, t + 1, p.changed)
  }

  /** An empty cell with a single note. */
  predicate Lone(b: Board, c: int)
    requires IsIndex(c)
  {
    b.vals[c] == Empty && |b.notes[c]| == 1
  }

  /** Some cell of the group is empty with a single note. */
  predicate LoneIn(b: Board, group: seq<int>)
    requires AllIndices(group)
  {
    exists s :: 0 <= s < |group| && Lone(b, group[s])
  }

  /** One cell of the scan: an empty cell with a single note takes that note. */
  function Single(b: Board, c: int, changed: bool): Pass
    requires IsIndex(c)
  {
    if Lone(b, c) then Pass(true, Assign(b, c, Only(b.notes[c])))
    else Pass(changed, b)
  }

  // ---------------------------------------------------------------------------
  // DR1._apply_rule

  /** _apply_naked_rule on one view; naked singles never raises. */
  function NakedUnit(nk: NakedKind, kind: UnitKind, b: Board, changed: bool): Effect
  {
    if nk == Singles then
      var p := SinglesFrom(kind, b, 0, changed);
      Effect(Ok(p.changed), p.board)
    else PatternGroups(nk, kind, b, 0, changed)
  }

  /** rows, then columns, then zones, stopping after a view whose _apply_naked_rule
      returns True: naked singles always does, so it scans the rows only. */
  function NakedFrom(nk: NakedKind, b: Board, k: int, changed: bool): Effect
    requires 0 <= k <= 3
    decreases 3 - k
  {
    if k == 3 then Effect(Ok(changed), b)
    else
      var e := NakedUnit(nk, KindAt(k), b, changed);
      if e.result.Err? || nk == Singles then e else NakedFrom(nk, e.board, k + 1, e.result.value)
  }

  /** One application of the rule, started with has_changed reset. */
  function NakedRule(nk: NakedKind, b: Board): Effect
  {
    NakedFrom(nk, b, 0, false)
  }

  // ---------------------------------------------------------------------------
  // What the finders return

  lemma InPrefixStep(s: seq<int>, k: int, x: int)
    requires 0 < k <= |s|
    ensures x in s[..k] <==> x in s[..k - 1] || x == s[k - 1]
  {
    assert s[..k] == s[..k - 1] + [s[k - 1]];
  }

  lemma AppendAssoc(a: seq<seq<int>>, b: seq<seq<int>>, c: seq<seq<int>>)
    ensures (a + b) + c == a + (b + c)
  {
  }

  lemma InWholePrefix(s: seq<int>, x: int)
    ensures x in s[..|s|] <==> x in s
  {
    assert s[..|s|] == s;
  }

  /** The pair p is appended while c is the outer candidate exactly when its second
      cell is one of the first j candidates, differs from c and has c's notes. */
  lemma {:induction false} PairsWithAt(b: Board, c: int, cands: seq<int>, j: int, p: seq<int>)
    requires IsIndex(c) && AllIndices(cands) && 0 <= j <= |cands|
    ensures p in PairsWith(b, c, cands, j) <==>
      |p| == 2 && p[0] == c && p[1] in cands[..j] && p[1] != c && b.notes[p[1]] == b.notes[c]
  {
    if j > 0 {
      var o := cands[j - 1];
      PairsWithAt(b, c, cands, j - 1, p);
      if |p| == 2 { InPrefixStep(cands, j, p[1]); }
      if |p| == 2 && p[0] == c && p[1] == o {
        assert p == [c, o];
      }
    }
  }

  lemma PairsFromAt(b: Board, cands: seq<int>, k: int, p: seq<int>)
    requires AllIndices(cands) && 0 <= k <= |cands|
    ensures p in PairsFrom(b, cands, k) <==>
      |p| == 2 && p[0] in cands[..k] && p[1] in cands && p[0] != p[1] && b.notes[p[0]] == b.notes[p[1]]
  {
    Utils.ConcatHas(PairsOf(b, cands), k, p);
    if p in PairsFrom(b, cands, k) {
      var i :| 0 <= i < k && p in PairsOf(b, cands)(i);
      PairsWithAt(b, cands[i], cands, |cands|, p);
      InWholePrefix(cands, p[1]);
      assert p[0] == cands[..k][i];
    }
    if |p| == 2 && p[0] in cands[..k] && p[1] in cands && p[0] != p[1] && b.notes[p[0]] == b.notes[p[1]] {
      var i :| 0 <= i < k && cands[..k][i] == p[0];
      PairsWithAt(b, cands[i], cands, |cands|, p);
      InWholePrefix(cands, p[1]);
      assert p in PairsOf(b, cands)(i);
    }
  }

  /** find_naked_pairs returns exactly the ordered pairs of distinct cells of the list
      whose notes are equal and hold two values. */
  lemma NakedPairsIff(b: Board, cells: seq<int>)
    requires AllIndices(cells)
    ensures forall p :: p in NakedPairs(b, cells) <==>
      |p| == 2 && p[0] in cells && p[1] in cells && p[0] != p[1] &&
      |b.notes[p[0]]| == 2 && b.notes[p[0]] == b.notes[p[1]]
  {
    var cands := Candidates(b, cells, 2, 2, |cells|);
    CandidatesIff(b, cells, 2, 2, |cells|);
    assert cands[..|cands|] == cands;
    assert cells[..|cells|] == cells;
    forall p ensures p in NakedPairs(b, cells) <==>
      |p| == 2 && p[0] in cells && p[1] in cells && p[0] != p[1] &&
      |b.notes[p[0]]| == 2 && b.notes[p[0]] == b.notes[p[1]]
    {
      PairsFromAt(b, cands, |cands|, p);
    }
  }

  /** The triple p is appended for outer candidates c1 and c2 exactly when its third
      cell is one of the first j candidates and the test accepts it. */
  lemma {:induction false} TriplesWithAt(accepts: (int, int, int) -> bool, c1: int, c2: int, cands: seq<int>, j: int, p: seq<int>)
    requires 0 <= j <= |cands|
    ensures p in TriplesWith(accepts, c1, c2, cands, j) <==>
      |p| == 3 && p[0] == c1 && p[1] == c2 && p[2] in cands[..j] && accepts(p[0], p[1], p[2])
  {
    if j > 0 {
      var c3 := cands[j - 1];
      TriplesWithAt(accepts, c1, c2, cands, j - 1, p);
      if |p| == 3 { InPrefixStep(cands, j, p[2]); }
      if |p| == 3 && p[0] == c1 && p[1] == c2 && p[2] == c3 {
        assert p == [c1, c2, c3];
      }
    }
  }

  lemma TriplesMidAt(accepts: (int, int, int) -> bool, c1: int, cands: seq<int>, k: int, p: seq<int>)
    requires 0 <= k <= |cands|
    ensures p in TriplesMid(accepts, c1, cands, k) <==>
      |p| == 3 && p[0] == c1 && p[1] in cands[..k] && p[2] in cands && accepts(p[0], p[1], p[2])
  {
    Utils.ConcatHas(TriplesOf(accepts, c1, cands), k, p);
    if p in TriplesMid(accepts, c1, cands, k) {
      var i :| 0 <= i < k && p in TriplesOf(accepts, c1, cands)(i);
      TriplesWithAt(accepts, c1, cands[i], cands, |cands|, p);
      InWholePrefix(cands, p[2]);
      assert p[1] == cands[..k][i];
    }
    if |p| == 3 && p[0] == c1 && p[1] in cands[..k] && p[2] in cands && accepts(p[0], p[1], p[2]) {
      var i :| 0 <= i < k && cands[..k][i] == p[1];
      TriplesWithAt(accepts, c1, cands[i], cands, |cands|, p);
      InWholePrefix(cands, p[2]);
      assert p in TriplesOf(accepts, c1, cands)(i);
    }
  }

  lemma TriplesFromAt(accepts: (int, int, int) -> bool, cands: seq<int>, k: int, p: seq<int>)
    requires 0 <= k <= |cands|
    ensures p in TriplesFrom(accepts, cands, k) <==>
      |p| == 3 && p[0] in cands[..k] && p[1] in cands && p[2] in cands && accepts(p[0], p[1], p[2])
  {
    Utils.ConcatHas(MidsOf(accepts, cands), k, p);
    if p in TriplesFrom(accepts, cands, k) {
      var i :| 0 <= i < k && p in MidsOf(accepts, cands)(i);
      TriplesMidAt(accepts, cands[i], cands, |cands|, p);
      InWholePrefix(cands, p[1]);
      assert p[0] == cands[..k][i];
    }
    if |p| == 3 && p[0] in cands[..k] && p[1] in cands && p[2] in cands && accepts(p[0], p[1], p[2]) {
      var i :| 0 <= i < k && cands[..k][i] == p[0];
      TriplesMidAt(accepts, cands[i], cands, |cands|, p);
      InWholePrefix(cands, p[1]);
      assert p in MidsOf(accepts, cands)(i);
    }
  }

  /** find_naked_triples returns exactly the ordered triples of distinct cells of the
      list, each with two or three notes, whose notes together hold three values and
      which the size rule does not pass over. */
  lemma NakedTriplesIff(b: Board, cells: seq<int>)
    requires AllIndices(cells)
    ensures forall p :: p in NakedTriples(b, cells) <==>
      |p| == 3 && p[0] in cells && p[1] in cells && p[2] in cells &&
      2 <= |b.notes[p[0]]| <= 3 && 2 <= |b.notes[p[1]]| <= 3 && 2 <= |b.notes[p[2]]| <= 3 &&
      IsNakedTriple(b, p[0], p[1], p[2])
  {
    var cands := Candidates(b, cells, 2, 3, |cells|);
    CandidatesIff(b, cells, 2, 3, |cells|);
    assert cands[..|cands|] == cands;
    assert cells[..|cells|] == cells;
    forall p ensures p in NakedTriples(b, cells) <==>
      |p| == 3 && p[0] in cells && p[1] in cells && p[2] in cells &&
      2 <= |b.notes[p[0]]| <= 3 && 2 <= |b.notes[p[1]]| <= 3 && 2 <= |b.notes[p[2]]| <= 3 &&
      IsNakedTriple(b, p[0], p[1], p[2])
    {
      TriplesFromAt(NakedTest(b), cands, |cands|, p);
    }
  }

  lemma PatternsAnchored(nk: NakedKind, b: Board, cells: seq<int>)
    requires nk != Singles && AllIndices(cells)
    ensures Anchored(Patterns(nk, b, cells))
  {
    var ps := Patterns(nk, b, cells);
    if nk == Pairs { NakedPairsIff(b, cells); } else { NakedTriplesIff(b, cells); }
    forall k | 0 <= k < |ps| ensures |ps[k]| > 0 && IsIndex(ps[k][0]) {
      assert ps[k] in ps;
    }
  }

  // ---------------------------------------------------------------------------
  // The methods on the arena

  method EmptyCellsOf(g: Grid, cells: seq<int>) returns (r: seq<int>)
    requires g.Shape() && AllIndices(cells)
    ensures r == EmptyCells(g.State().vals, cells, |cells|)
  {
    r := [];
    for k := 0 to |cells|
      invariant r == EmptyCells(g.State().vals, cells, k)
    {
      if g.vals[cells[k]] == Empty {
        r := r + [cells[k]];
      }
    }
  }

  method CandidatesOf(g: Grid, cells: seq<int>, lo: int, hi: int) returns (r: seq<int>)
    requires g.Shape() && AllIndices(cells)
    ensures r == Candidates(g.State(), cells, lo, hi, |cells|)
  {
    r := [];
    for k := 0 to |cells|
      invariant r == Candidates(g.State(), cells, lo, hi, k)
    {
      if lo <= |g.notes[cells[k]]| <= hi {
        r := r + [cells[k]];
      }
    }
  }

  /** DR1_2.find_naked_pairs */
  method FindNakedPairs(g: Grid, cells: seq<int>) returns (pairs: seq<seq<int>>)
    requires g.Shape() && AllIndices(cells)
    ensures pairs == NakedPairs(g.State(), cells)
  {
    ghost var b := g.State();
    var cands := CandidatesOf(g, cells, 2, 2);
    pairs := [];
    for i := 0 to |cands|
      invariant pairs == PairsFrom(b, cands, i)
    {
      PairsFromStep(b, cands, i);
      pairs := AppendPairsFor(g, cands[i], cands, pairs);
    }
  }

  /** The inner loop of find_naked_pairs, over the second cell. */
  method AppendPairsFor(g: Grid, cell: int, cands: seq<int>, pairs: seq<seq<int>>)
    returns (r: seq<seq<int>>)
    requires g.Shape() && IsIndex(cell) && AllIndices(cands)
    ensures r == pairs + PairsWith(g.State(), cell, cands, |cands|)
  {
    ghost var b := g.State();
    r := pairs;
    for j := 0 to |cands|
      invariant r == pairs + PairsWith(b, cell, cands, j)
    {
      var other := cands[j];
      ghost var part := if cell != other && b.notes[cell] == b.notes[other] then [[cell, other]] else [];
      AppendAssoc(pairs, PairsWith(b, cell, cands, j), part);
      if cell != other && g.notes[cell] == g.notes[other] {
        r := r + [[cell, other]];
      }
    }
  }

  /** One more outer iteration appends the pairs whose first cell is cands[i]. */
  lemma PairsFromStep(b: Board, cands: seq<int>, i: int)
    requires AllIndices(cands) && 0 <= i < |cands|
    ensures PairsFrom(b, cands, i + 1) == PairsFrom(b, cands, i) + PairsWith(b, cands[i], cands, |cands|)
  {
    assert PairsOf(b, cands)(i) == PairsWith(b, cands[i], cands, |cands|);
  }

  /** DR1_3.find_naked_triples */
  method FindNakedTriples(g: Grid, cells: seq<int>) returns (triples: seq<seq<int>>)
    requires g.Shape() && AllIndices(cells)
    ensures triples == NakedTriples(g.State(), cells)
  {
    ghost var b := g.State();
    var cands := CandidatesOf(g, cells, 2, 3);
    ghost var test := NakedTest(b);
    triples := [];
    for i := 0 to |cands|
      invariant triples == TriplesFrom(test, cands, i)
    {
      TriplesFromStep(test, cands, i);
      triples := AppendTriplesFor(g, test, cands[i], cands, triples);
    }
  }

  /** One more outer iteration appends the triples whose first cell is cands[i]. */
  lemma TriplesFromStep(test: (int, int, int) -> bool, cands: seq<int>, i: int)
    requires 0 <= i < |cands|
    ensures TriplesFrom(test, cands, i + 1) == TriplesFrom(test, cands, i) + TriplesMid(test, cands[i], cands, |cands|)
  {
    assert MidsOf(test, cands)(i) == TriplesMid(test, cands[i], cands, |cands|);
  }

  /** The middle loop of find_naked_triples, over the second cell. */
  method AppendTriplesFor(g: Grid, ghost test: (int, int, int) -> bool, cell: int, cands: seq<int>,
                          triples: seq<seq<int>>) returns (r: seq<seq<int>>)
    requires g.Shape() && IsIndex(cell) && AllIndices(cands)
    requires test == NakedTest(g.State())
    ensures r == triples + TriplesMid(test, cell, cands, |cands|)
  {
    r := triples;
    for j := 0 to |cands|
      invariant r == triples + TriplesMid(test, cell, cands, j)
    {
      var next := AppendTriples(g, test, cell, cands[j], cands, r);
      TriplesMidStep(test, cell, cands, j, triples, r, next);
      r := next;
    }
  }

  /** One more middle iteration appends the triples whose second cell is cands[j]. */
  lemma TriplesMidStep(test: (int, int, int) -> bool, cell: int, cands: seq<int>, j: int,
                       triples: seq<seq<int>>, r: seq<seq<int>>, next: seq<seq<int>>)
    requires 0 <= j < |cands|
    requires r == triples + TriplesMid(test, cell, cands, j)
    requires next == r + TriplesWith(test, cell, cands[j], cands, |cands|)
    ensures next == triples + TriplesMid(test, cell, cands, j + 1)
  {
    assert TriplesOf(test, cell, cands)(j) == TriplesWith(test, cell, cands[j], cands, |cands|);
    AppendAssoc(triples, TriplesMid(test, cell, cands, j), TriplesWith(test, cell, cands[j], cands, |cands|));
  }

  /** The innermost loop of find_naked_triples, over the third cell. */
  method AppendTriples(g: Grid, ghost test: (int, int, int) -> bool, cell: int, other: int, cands: seq<int>,
                       triples: seq<seq<int>>) returns (r: seq<seq<int>>)
    requires g.Shape() && IsIndex(cell) && IsIndex(other) && AllIndices(cands)
    requires test == NakedTest(g.State())
    ensures r == triples + TriplesWith(test, cell, other, cands, |cands|)
  {
    r := triples;
    for k := 0 to |cands|
      invariant r == triples + TriplesWith(test, cell, other, cands, k)
    {
      var third := cands[k];
      if cell != other && third != cell && third != other {
        var combined := g.notes[cell] + g.notes[other] + g.notes[third];
        if |combined| == 3 {
          if !Skipped(g.notes[cell], g.notes[other], g.notes[third]) {
            r := r + [[cell, other, third]];
          }
        }
      }
    }
  }

  /** The inner loop over the first cell's notes for target t. */
  method StrikeNotes(g: Grid, t: int, remove: set<int>, changed: bool) returns (r: Result<bool>)
    requires g.Shape() && IsIndex(t)
    modifies g.notes
    ensures Effect(r, g.State()) == Strike(old(g.State()), t, remove, changed)
  {
    ghost var b := g.State();
    ghost var before := g.notes[t];
    var rest := remove;
    r := Ok(changed);
    assert before - (remove - rest) == before;
    assert g.notes[..] == b.notes[t := before];
    while rest != {}
      invariant rest <= remove
      invariant g.notes[..] == b.notes[t := before - (remove - rest)]
      invariant r == Ok(changed || g.notes[t] != before)
      invariant g.notes[t] == {} ==> g.notes[t] == before
      decreases |rest|
    {
      NoMembers(rest);
      var note :| note in rest;
      StrikeStep(before, remove, rest, note);
      assert g.notes[t] == before - (remove - rest);
      ghost var next := before - (remove - (rest - {note}));
      if note in g.notes[t] {
        g.notes[t] := g.notes[t] - {note};
        assert g.notes[..] == b.notes[t := next];
        r := Ok(true);
        if g.notes[t] == {} {
          EmptiedEarly(before, remove, rest, note);
          assert g.notes[..] == b.notes[t := before - remove];
          return Err(NoteSetEmptied(t));
        }
      }
      rest := rest - {note};
    }
    assert remove - rest == remove;
    Untouched(before, remove);
    assert g.notes[..] == b.notes[t := before - remove];
  }

  /** The loop over the related cells of one pattern. */
  method StrikeTargets(g: Grid, targets: set<int>, remove: set<int>, changed: bool) returns (r: Result<bool>)
    requires g.Shape()
    modifies g.notes
    ensures Effect(r, g.State()) == StrikeFrom(old(g.State()), targets, remove, 0, changed)
  {
    r := Ok(changed);
    for j := 0 to CellCount
      invariant r.Ok?
      invariant StrikeFrom(g.State(), targets, remove, j, r.value) == StrikeFrom(old(g.State()), targets, remove, 0, changed)
    {
      if j in targets {
        r := StrikeNotes(g, j, remove, r.value);
        if r.Err? {
          return;
        }
      }
    }
  }

  /** DR1_2._apply_naked_rule / DR1_3._apply_naked_rule on one group. */
  method NakedGroup(g: Grid, nk: NakedKind, group: seq<int>, changed: bool) returns (r: Result<bool>)
    requires g.Shape() && nk != Singles && AllIndices(group)
    modifies g.notes
    ensures Effect(r, g.State()) == PatternGroup(nk, old(g.State()), group, changed)
  {
    ghost var target := PatternGroup(nk, g.State(), group, changed);
    var cells := EmptyCellsOf(g, group);
    var ps;
    if nk == Pairs {
      ps := FindNakedPairs(g, cells);
    } else {
      ps := FindNakedTriples(g, cells);
    }
    PatternsAnchored(nk, g.State(), cells);
    assert ps == Patterns(nk, g.State(), cells);
    assert ApplyPatterns(g.State(), group, ps, 0, changed) == target;
    r := Ok(changed);
    for k := 0 to |ps|
      invariant r.Ok?
      invariant ApplyPatterns(g.State(), group, ps, k, r.value) == target
    {
      r := StrikePattern(g, group, ps[k], r.value);
      if r.Err? {
        return;
      }
    }
  }

  /** The loop body of _apply_naked_rule for one pattern. */
  method StrikePattern(g: Grid, group: seq<int>, p: seq<int>, changed: bool) returns (r: Result<bool>)
    requires g.Shape() && AllIndices(group) && |p| > 0 && IsIndex(p[0])
    modifies g.notes
    ensures Effect(r, g.State()) == ApplyPattern(old(g.State()), group, p, changed)
  {
    var remove := g.notes[p[0]];
    var targets := Related(g.vals[..], group, p);
    r := StrikeTargets(g, targets, remove, changed);
  }

  /** DR1_1._apply_naked_rule on one view. */
  method SinglesUnit(g: Grid, k: int, changed: bool) returns (ch: bool)
    requires g.Shape() && 0 <= k < 3
    modifies g.vals, g.notes
    ensures Pass(ch, g.State()) == SinglesFrom(KindAt(k), old(g.State()), 0, changed)
  {
    var view := g.View(k);
    ghost var kind := KindAt(k);
    ch := changed;
    for gi := 0 to 9
      invariant SinglesFrom(kind, g.State(), gi, ch) == SinglesFrom(kind, old(g.State()), 0, changed)
    {
      SinglesFromNext(kind, g.State(), gi, ch);
      assert view[gi] == Group(kind, gi);
      ch := SinglesGroup(g, view[gi], ch);
    }
    SinglesFromEnd(kind, g.State(), ch);
  }

  /** One group of a view's scan hands its board and flag to the next. */
  lemma SinglesFromNext(kind: UnitKind, b: Board, gi: int, changed: bool)
    requires 0 <= gi < 9
    ensures var p := SinglesIn(b, Group(kind, gi), 0, changed);
      SinglesFrom(kind, b, gi, changed) == SinglesFrom(kind, p.board, gi + 1, p.changed)
  {
  }

  /** After the last group the view's scan is done. */
  lemma SinglesFromEnd(kind: UnitKind, b: Board, changed: bool)
    ensures SinglesFrom(kind, b, 9, changed) == Pass(changed, b)
  {
  }

  /** The inner loop of DR1_1._apply_naked_rule: the cells of one group in order. */
  method SinglesGroup(g: Grid, group: seq<int>, changed: bool) returns (ch: bool)
    requires g.Shape() && AllIndices(group)
    modifies g.vals, g.notes
    ensures Pass(ch, g.State()) == SinglesIn(old(g.State()), group, 0, changed)
  {
    ch := changed;
    for t := 0 to |group|
      invariant SinglesIn(g.State(), group, t, ch) == SinglesIn(old(g.State()), group, 0, changed)
    {
      SinglesInNext(g.State(), group, t, ch);
      ch := SingleCell(g, group[t], ch);
    }
    SinglesInEnd(g.State(), group, ch);
  }

  /** One cell of a group's scan hands its board and flag to the next. */
  lemma SinglesInNext(b: Board, group: seq<int>, t: int, changed: bool)
    requires AllIndices(group) && 0 <= t < |group|
    ensures var p := Single(b, group[t], changed);
      SinglesIn(b, group, t, changed) == SinglesIn(p.board, group, t + 1, p.changed)
  {
  }

  /** After the last cell the group's scan is done. */
  lemma SinglesInEnd(b: Board, group: seq<int>, changed: bool)
    requires AllIndices(group)
    ensures SinglesIn(b, group, |group|, changed) == Pass(changed, b)
  {
  }

  /** The body of DR1_1's scan for one cell. */
  method SingleCell(g: Grid, cell: int, changed: bool) returns (ch: bool)
    requires g.Shape() && IsIndex(cell)
    modifies g.vals, g.notes
    ensures Pass(ch, g.State()) == Single(old(g.State()), cell, changed)
  {
    ch := changed;
    if g.vals[cell] == Empty && |g.notes[cell]| == 1 {
      ghost var b := g.State();
      var v := Only(g.notes[cell]);
      g.notes[cell] := g.notes[cell] - {v};
      assert Place(g.State(), cell, v) == Place(b, cell, v);
      var _ := g.SetValue(cell, v);
      ch := true;
    }
  }

  /** DR1._apply_rule: the views in turn until one reports that it is enough. */
  method ApplyNaked(g: Grid, nk: NakedKind, changed: bool) returns (r: Result<bool>)
    requires g.Shape()
    modifies g.vals, g.notes
    ensures Effect(r, g.State()) == NakedFrom(nk, old(g.State()), 0, changed)
  {
    r := Ok(changed);
    for k := 0 to 3
      invariant r.Ok?
      invariant NakedFrom(nk, g.State(), k, r.value) == NakedFrom(nk, old(g.State()), 0, changed)
    {
      ghost var b, c := g.State(), r.value;
      NakedFromNext(nk, b, k, c);
      var done;
      r, done := NakedView(g, nk, k, r.value);
      if r.Err? || done {
        return;
      }
    }
    NakedFromEnd(nk, g.State(), r.value);
  }

  /** One view of the scan: it either ends the scan or hands its board and flag on. */
  lemma NakedFromNext(nk: NakedKind, b: Board, k: int, changed: bool)
    requires 0 <= k < 3
    ensures var e := NakedUnit(nk, KindAt(k), b, changed);
      NakedFrom(nk, b, k, changed) ==
        if e.result.Err? || nk == Singles then e else NakedFrom(nk, e.board, k + 1, e.result.value)
  {
  }

  /** _apply_naked_rule on view k, and whether it returned True. */
  method NakedView(g: Grid, nk: NakedKind, k: int, changed: bool) returns (r: Result<bool>, done: bool)
    requires g.Shape() && 0 <= k < 3
    modifies g.vals, g.notes
    ensures Effect(r, g.State()) == NakedUnit(nk, KindAt(k), old(g.State()), changed)
    ensures done <==> nk == Singles
  {
    if nk == Singles {
      var ch := SinglesUnit(g, k, changed);
      return Ok(ch), true;
    }
    r := PatternView(g, nk, k, changed);
    done := false;
  }

  /** _apply_naked_rule of pairs and triples on view k: the groups in turn, until one
      raises. */
  method PatternView(g: Grid, nk: NakedKind, k: int, changed: bool) returns (r: Result<bool>)
    requires g.Shape() && 0 <= k < 3 && nk != Singles
    modifies g.notes
    ensures Effect(r, g.State()) == PatternGroups(nk, KindAt(k), old(g.State()), 0, changed)
  {
    var view := g.View(k);
    ghost var kind := KindAt(k);
    ghost var whole := PatternGroups(nk, kind, g.State(), 0, changed);
    r := Ok(changed);
    for gi := 0 to 9
      invariant r.Ok?
      invariant PatternGroups(nk, kind, g.State(), gi, r.value) == whole
    {
      PatternGroupsNext(nk, kind, g.State(), gi, r.value);
      assert view[gi] == Group(kind, gi);
      r := NakedGroup(g, nk, view[gi], r.value);
      if r.Err? {
        return;
      }
    }
    PatternGroupsEnd(nk, kind, g.State(), r.value);
  }

  /** One group of a view: it either raises or hands its board and flag on. */
  lemma PatternGroupsNext(nk: NakedKind, kind: UnitKind, b: Board, gi: int, changed: bool)
    requires nk != Singles && 0 <= gi < 9
    ensures var e := PatternGroup(nk, b, Group(kind, gi), changed);
      PatternGroups(nk, kind, b, gi, changed) ==
        if e.result.Err? then e else PatternGroups(nk, kind, e.board, gi + 1, e.result.value)
  {
  }

  /** After the last group the view is done. */
  lemma PatternGroupsEnd(nk: NakedKind, kind: UnitKind, b: Board, changed: bool)
    requires nk != Singles
    ensures PatternGroups(nk, kind, b, 9, changed) == Effect(Ok(changed), b)
  {
  }

  // ---------------------------------------------------------------------------
  // What a pass does

  /** One pattern's removal, stated without the visiting order: it raises exactly when
      some related cell would lose its last note, and otherwise every related cell
      loses `remove` and nothing else changes. */
  lemma {:induction false} StrikeFromEffect(b: Board, targets: set<int>, remove: set<int>, j: int, changed: bool)
    requires 0 <= j <= CellCount
    ensures StrikeFrom(b, targets, remove, j, changed).board.vals == b.vals
    ensures Shrinks(b, StrikeFrom(b, targets, remove, j, changed).board)
    ensures StrikeFrom(b, targets, remove, j, changed).result.Ok? <==>
      forall t :: j <= t < CellCount && t in targets ==> !Empties(b.notes[t], remove)
    ensures StrikeFrom(b, targets, remove, j, changed).result.Err? ==>
      exists t :: j <= t < CellCount && t in targets && Empties(b.notes[t], remove) &&
        StrikeFrom(b, targets, remove, j, changed).result.error == NoteSetEmptied(t)
    ensures StrikeFrom(b, targets, remove, j, changed).result.Ok? ==>
      forall t :: 0 <= t < CellCount ==>
        (StrikeFrom(b, targets, remove, j, changed).board.notes[t] ==
         if j <= t && t in targets then b.notes[t] - remove else b.notes[t])
    ensures StrikeFrom(b, targets, remove, j, changed).result.Ok? ==>
      (StrikeFrom(b, targets, remove, j, changed).result.value <==>
        changed || exists t :: j <= t < CellCount && t in targets && b.notes[t] * remove != {})
    decreases CellCount - j
  {
    if j < CellCount {
      if j in targets {
        var e := Strike(b, j, remove, changed);
        if e.result.Ok? {
          StrikeFromEffect(e.board, targets, remove, j + 1, e.result.value);
        }
      } else {
        StrikeFromEffect(b, targets, remove, j + 1, changed);
      }
    }
  }

  /** What a pattern step may do: values stay, notes only shrink, and on success the
      flag is set exactly when it started set or the board changed. */
  predicate Kept(b: Board, e: Effect, changed: bool)
  {
    e.board.vals == b.vals && Shrinks(b, e.board) &&
    (e.result.Ok? ==> Progress(b, e.board, changed, e.result.value))
  }

  lemma KeptTrans(b: Board, e1: Effect, e2: Effect, changed: bool)
    requires Kept(b, e1, changed) && e1.result.Ok? && Kept(e1.board, e2, e1.result.value)
    ensures Kept(b, e2, changed)
  {
    ShrinksTrans(b, e1.board, e2.board);
    if e2.result.Ok? {
      ProgressTrans(b, e1.board, e2.board, changed, e1.result.value, e2.result.value);
    }
  }

  /** A pattern's removals only take notes away, set the flag exactly when one
      happened, and never touch a value. */
  lemma {:induction false} StrikeFromProgress(b: Board, targets: set<int>, remove: set<int>, changed: bool)
    ensures Kept(b, StrikeFrom(b, targets, remove, 0, changed), changed)
  {
    var e := StrikeFrom(b, targets, remove, 0, changed);
    StrikeFromEffect(b, targets, remove, 0, changed);
    if e.result.Ok? {
      if e.board != b {
        assert e.board.notes != b.notes;
        var t :| 0 <= t < CellCount && e.board.notes[t] != b.notes[t];
        Untouched(b.notes[t], remove);
      }
      if e.result.value && !changed {
        var t :| 0 <= t < CellCount && t in targets && b.notes[t] * remove != {};
        Untouched(b.notes[t], remove);
        assert e.board.notes[t] != b.notes[t];
      }
    }
  }

  lemma {:induction false} ApplyPatternsProgress(b: Board, group: seq<int>, ps: seq<seq<int>>, k: int, changed: bool)
    requires AllIndices(group) && 0 <= k <= |ps|
    requires Anchored(ps)
    ensures Kept(b, ApplyPatterns(b, group, ps, k, changed), changed)
    decreases |ps| - k
  {
    if k < |ps| {
      var p := ps[k];
      var e := ApplyPattern(b, group, p, changed);
      StrikeFromProgress(b, Related(b.vals, group, p), b.notes[p[0]], changed);
      if e.result.Ok? {
        ApplyPatternsProgress(e.board, group, ps, k + 1, e.result.value);
        KeptTrans(b, e, ApplyPatterns(e.board, group, ps, k + 1, e.result.value), changed);
      }
    } else {
      assert Shrinks(b, b);
    }
  }

  /** A scan of groups keeps the property when every group step does. */
  lemma {:induction false} ScanKept(step: (Board, int, bool) -> Effect, b: Board, gi: int, changed: bool)
    requires 0 <= gi <= 9
    requires forall b': Board, g, ch :: 0 <= g < 9 ==> Kept(b', step(b', g, ch), ch)
    ensures Kept(b, ScanGroups(step, b, gi, changed), changed)
    decreases 9 - gi
  {
    if gi < 9 {
      var e := step(b, gi, changed);
      if e.result.Ok? {
        ScanKept(step, e.board, gi + 1, e.result.value);
        KeptTrans(b, e, ScanGroups(step, e.board, gi + 1, e.result.value), changed);
      }
    } else {
      assert Shrinks(b, b);
    }
  }

  lemma PatternGroupsProgress(nk: NakedKind, kind: UnitKind, b: Board, gi: int, changed: bool)
    requires nk != Singles && 0 <= gi <= 9
    ensures Kept(b, PatternGroups(nk, kind, b, gi, changed), changed)
  {
    var step := PatternStep(nk, kind);
    forall b': Board, g, ch | 0 <= g < 9
      ensures Kept(b', step(b', g, ch), ch)
    {
      PatternGroupProgress(nk, b', Group(kind, g), ch);
    }
    ScanKept(step, b, gi, changed);
  }

  lemma PatternGroupProgress(nk: NakedKind, b: Board, group: seq<int>, changed: bool)
    requires nk != Singles && AllIndices(group)
    ensures Kept(b, PatternGroup(nk, b, group, changed), changed)
  {
    var cells := EmptyCells(b.vals, group, |group|);
    PatternsAnchored(nk, b, cells);
    ApplyPatternsProgress(b, group, Patterns(nk, b, cells), 0, changed);
  }

  /** Naked singles only fills empty cells with one of their notes and only shrinks
      notes, and reports a change exactly when the board changed. */
  lemma {:induction false} SinglesProgress(kind: UnitKind, b: Board, gi: int, changed: bool)
    requires 0 <= gi <= 9
    ensures Deduced(b, SinglesFrom(kind, b, gi, changed).board)
    ensures Progress(b, SinglesFrom(kind, b, gi, changed).board, changed, SinglesFrom(kind, b, gi, changed).changed)
    decreases 9 - gi
  {
    if gi < 9 {
      var p := SinglesIn(b, Group(kind, gi), 0, changed);
      SinglesInProgress(b, Group(kind, gi), 0, changed);
      var q := SinglesFrom(kind, p.board, gi + 1, p.changed);
      SinglesProgress(kind, p.board, gi + 1, p.changed);
      DeducedTrans(b, p.board, q.board);
      ProgressTrans(b, p.board, q.board, changed, p.changed, q.changed);
    } else {
      assert Shrinks(b, b);
    }
  }

  lemma {:induction false} SinglesInProgress(b: Board, group: seq<int>, t: int, changed: bool)
    requires AllIndices(group) && 0 <= t <= |group|
    ensures Deduced(b, SinglesIn(b, group, t, changed).board)
    ensures Progress(b, SinglesIn(b, group, t, changed).board, changed, SinglesIn(b, group, t, changed).changed)
    decreases |group| - t
  {
    if t < |group| {
      var c := group[t];
      if Lone(b, c) {
        var a := Assign(b, c, Only(b.notes[c]));
        AssignDeduced(b, c, Only(b.notes[c]));
        var q := SinglesIn(a, group, t + 1, true);
        SinglesInProgress(a, group, t + 1, true);
        DeducedTrans(b, a, q.board);
        ProgressTrans(b, a, q.board, changed, true, q.changed);
      } else {
        SinglesInProgress(b, group, t + 1, changed);
      }
    } else {
      assert Shrinks(b, b);
    }
  }

  /** A group's scan reports a change exactly when it started with the flag set or
      one of the cells still to visit holds a single note on the board it starts from. */
  lemma {:induction false} SinglesInFire(b: Board, group: seq<int>, t: int, changed: bool)
    requires AllIndices(group) && 0 <= t <= |group|
    ensures SinglesIn(b, group, t, changed).changed <==>
      changed || exists s :: t <= s < |group| && Lone(b, group[s])
    decreases |group| - t
  {
    if t < |group| {
      if Lone(b, group[t]) {
        var a := Assign(b, group[t], Only(b.notes[group[t]]));
        SinglesInProgress(a, group, t + 1, true);
      } else {
        SinglesInFire(b, group, t + 1, changed);
      }
    }
  }

  /** A view's scan reports a change exactly when it started with the flag set or one
      of the cells of the groups still to visit holds a single note at the start. */
  lemma {:induction false} SinglesFire(kind: UnitKind, b: Board, gi: int, changed: bool)
    requires 0 <= gi <= 9
    ensures SinglesFrom(kind, b, gi, changed).changed <==>
      changed || exists h :: gi <= h < 9 && LoneIn(b, Group(kind, h))
    decreases 9 - gi, 1
  {
    if gi < 9 {
      SinglesFireStep(kind, b, gi, changed);
      if SinglesFrom(kind, b, gi, changed).changed && (changed || LoneIn(b, Group(kind, gi))) {
        SinglesFireHit(kind, b, gi, changed);
      } else {
        SinglesFireSkip(kind, b, gi, changed);
      }
    } else {
      SinglesFromEnd(kind, b, changed);
    }
  }

  /** The view's scan fires at group gi. */
  lemma SinglesFireHit(kind: UnitKind, b: Board, gi: int, changed: bool)
    requires 0 <= gi < 9
    requires SinglesFrom(kind, b, gi, changed).changed && (changed || LoneIn(b, Group(kind, gi)))
    ensures SinglesFrom(kind, b, gi, changed).changed <==>
      changed || exists h :: gi <= h < 9 && LoneIn(b, Group(kind, h))
  {
    if !changed {
      assert gi <= gi < 9 && LoneIn(b, Group(kind, gi));
    }
  }

  /** Group gi holds no single-note cell: the scan goes on from the next group. */
  lemma {:induction false} SinglesFireSkip(kind: UnitKind, b: Board, gi: int, changed: bool)
    requires 0 <= gi < 9
    requires SinglesFrom(kind, b, gi, changed) == SinglesFrom(kind, b, gi + 1, changed)
    requires !changed && !LoneIn(b, Group(kind, gi))
    ensures SinglesFrom(kind, b, gi, changed).changed <==>
      changed || exists h :: gi <= h < 9 && LoneIn(b, Group(kind, h))
    decreases 9 - gi, 0
  {
    SinglesFire(kind, b, gi + 1, changed);
    assert forall h :: gi <= h < 9 && LoneIn(b, Group(kind, h)) ==> gi + 1 <= h < 9;
  }

  /** One group of the view: either its scan fires, and then so does the view's, or
      the group holds no single-note cell and the board is passed on as it was. */
  lemma SinglesFireStep(kind: UnitKind, b: Board, gi: int, changed: bool)
    requires 0 <= gi < 9
    ensures (SinglesFrom(kind, b, gi, changed).changed && (changed || LoneIn(b, Group(kind, gi)))) ||
      (SinglesFrom(kind, b, gi, changed) == SinglesFrom(kind, b, gi + 1, changed) && !changed && !LoneIn(b, Group(kind, gi)))
  {
    var p := SinglesIn(b, Group(kind, gi), 0, changed);
    SinglesInFire(b, Group(kind, gi), 0, changed);
    assert SinglesFrom(kind, b, gi, changed) == SinglesFrom(kind, p.board, gi + 1, p.changed);
    if p.changed {
      SinglesProgress(kind, p.board, gi + 1, p.changed);
    } else {
      SinglesInProgress(b, Group(kind, gi), 0, changed);
      assert p.board == b;
    }
  }

  /** What a naked rule may do to a board: fill empty cells with one of their notes
      (pairs and triples fill none), shrink notes, and on success report a change
      exactly when the board changed. */
  predicate Sound(nk: NakedKind, b: Board, e: Effect, changed: bool)
  {
    Deduced(b, e.board) && (nk != Singles ==> e.board.vals == b.vals) &&
    (e.result.Ok? ==> Progress(b, e.board, changed, e.result.value))
  }

  lemma NakedUnitSound(nk: NakedKind, kind: UnitKind, b: Board, changed: bool)
    ensures Sound(nk, b, NakedUnit(nk, kind, b, changed), changed)
  {
    if nk == Singles {
      SinglesProgress(kind, b, 0, changed);
    } else {
      PatternGroupsProgress(nk, kind, b, 0, changed);
    }
  }

  lemma {:induction false} NakedFromSound(nk: NakedKind, b: Board, k: int, changed: bool)
    requires 0 <= k <= 3
    ensures Sound(nk, b, NakedFrom(nk, b, k, changed), changed)
    decreases 3 - k, 1
  {
    if k < 3 {
      NakedFromSoundAt(nk, b, k, changed);
    } else {
      NakedFromEnd(nk, b, changed);
    }
  }

  /** The scan from a view that exists: that view, then the views after it. */
  lemma {:induction false} NakedFromSoundAt(nk: NakedKind, b: Board, k: int, changed: bool)
    requires 0 <= k < 3
    ensures Sound(nk, b, NakedFrom(nk, b, k, changed), changed)
    decreases 3 - k, 0
  {
    var e := NakedUnit(nk, KindAt(k), b, changed);
    if e.result.Ok? && nk != Singles {
      NakedFromSound(nk, e.board, k + 1, e.result.value);
    }
    NakedFromStep(nk, b, k, changed);
  }

  /** After the last view the board is as it was. */
  lemma NakedFromEnd(nk: NakedKind, b: Board, changed: bool)
    ensures NakedFrom(nk, b, 3, changed) == Effect(Ok(changed), b)
    ensures Sound(nk, b, NakedFrom(nk, b, 3, changed), changed)
  {
    assert Shrinks(b, b);
  }

  /** One view of the scan: its own soundness and that of the views after it compose. */
  lemma NakedFromStep(nk: NakedKind, b: Board, k: int, changed: bool)
    requires 0 <= k < 3
    requires var e := NakedUnit(nk, KindAt(k), b, changed);
      e.result.Ok? && nk != Singles ==> Sound(nk, e.board, NakedFrom(nk, e.board, k + 1, e.result.value), e.result.value)
    ensures Sound(nk, b, NakedFrom(nk, b, k, changed), changed)
  {
    var e := NakedUnit(nk, KindAt(k), b, changed);
    NakedUnitSound(nk, KindAt(k), b, changed);
    if e.result.Ok? && nk != Singles {
      var rest := NakedFrom(nk, e.board, k + 1, e.result.value);
      DeducedTrans(b, e.board, rest.board);
      if rest.result.Ok? {
        ProgressTrans(b, e.board, rest.board, changed, e.result.value, rest.result.value);
      }
    }
  }

  /** A naked rule only shrinks notes and, for singles, fills cells with one of their
      notes; pairs and triples never change a value; on success its flag says exactly
      whether the board changed. */
  lemma NakedRuleProgress(nk: NakedKind, b: Board)
    ensures Deduced(b, NakedRule(nk, b).board)
    ensures nk != Singles ==> NakedRule(nk, b).board.vals == b.vals
    ensures NakedRule(nk, b).result.Ok? ==> Progress(b, NakedRule(nk, b).board, false, NakedRule(nk, b).result.value)
  {
    NakedFromSound(nk, b, 0, false);
  }

  /** Naked singles scans the rows once, and reports a change exactly when some empty
      cell had a single note. */
  lemma NakedSinglesFire(b: Board)
    ensures NakedRule(Singles, b).result.Ok?
    ensures NakedRule(Singles, b).result.value <==> exists c :: IsIndex(c) && Lone(b, c)
  {
    NakedSinglesRows(b);
    SinglesFire(Rows, b, 0, false);
    LoneSomewhere(b);
  }

  /** Naked singles is the scan of the rows view. */
  lemma NakedSinglesRows(b: Board)
    ensures NakedRule(Singles, b) == Effect(Ok(SinglesFrom(Rows, b, 0, false).changed), SinglesFrom(Rows, b, 0, false).board)
  {
  }

  /** Some row holds a single-note cell exactly when some cell is one. */
  lemma LoneSomewhere(b: Board)
    ensures (exists h :: 0 <= h < 9 && LoneIn(b, Group(Rows, h))) <==> exists c :: IsIndex(c) && Lone(b, c)
  {
    if exists c :: IsIndex(c) && Lone(b, c) {
      var c :| IsIndex(c) && Lone(b, c);
      var h, s := GroupOfCell(Rows, c);
      assert LoneIn(b, Group(Rows, h));
    }
    if exists h :: 0 <= h < 9 && LoneIn(b, Group(Rows, h)) {
      var h :| 0 <= h < 9 && LoneIn(b, Group(Rows, h));
      LoneCell(b, Group(Rows, h));
    }
  }

  lemma LoneCell(b: Board, group: seq<int>)
    requires AllIndices(group) && LoneIn(b, group)
    ensures exists c :: IsIndex(c) && Lone(b, c)
  {
    var s :| 0 <= s < |group| && Lone(b, group[s]);
  }
}
