/** DR3: the Y-Wing rule.  A pivot is an empty cell with two notes {x, y}; its pincers
    are empty peers with two notes sharing one of them with it.  Two pincers {x, z}
    and {y, z} make a wing: whichever value the pivot takes, one pincer holds z, so
    no cell seen by both pincers can hold z.  apply_y_wing removes z from the first
    such cell it meets and returns at once.

    Python set iteration decides which pincer pair and which target are met first;
    the model leaves that choice open: the first pivot in grid order that has a hit
    is used, with any of its hits. */
module YWing {
  import opened Cells
  import opened Boards
  import opened Grids
  import Utils

  /** A pivot is an empty cell with exactly two notes. */
  predicate IsPivot(b: Board, p: int)
  {
    IsIndex(p) && b.vals[p] == Empty && |b.notes[p]| == 2
  }

  /** The possible pincers of pivot p: its empty peers with two notes, exactly one of
      them shared with the pivot. */
  function Pincers(b: Board, p: int): (r: set<int>)
    requires IsIndex(p)
    ensures forall c :: c in r <==> (IsIndex(c) && c != p && SharesUnit(p, c) && b.vals[c] == Empty &&
      |b.notes[c]| == 2 && |b.notes[p] * b.notes[c]| == 1)
  {
    PeersIff(p);
    set c | c in Peers(p) && 0 <= c < CellCount && b.vals[c] == Empty && |b.notes[c]| == 2 &&
      |b.notes[p] * b.notes[c]| == 1
  }

  /** Two distinct pincers whose notes and the pivot's make three values, the two
      pincers sharing exactly one. */
  predicate Wing(b: Board, p: int, p1: int, p2: int)
    requires IsIndex(p)
  {
    p1 in Pincers(b, p) && p2 in Pincers(b, p) && p1 != p2 &&
    |b.notes[p] + b.notes[p1] + b.notes[p2]| == 3 && |b.notes[p1] * b.notes[p2]| == 1
  }

  /** The note the two pincers share. */
  function Common(b: Board, p1: int, p2: int): int
    requires IsIndex(p1) && IsIndex(p2) && |b.notes[p1] * b.notes[p2]| == 1
  {
    Only(b.notes[p1] * b.notes[p2])
  }

  /** get_cells_seen_by_pincers: the empty cells that are peers of both pincers, other
      than the pivot and the pincers. */
  function SeenByPincers(b: Board, p: int, p1: int, p2: int): (r: set<int>)
    requires IsIndex(p) && IsIndex(p1) && IsIndex(p2)
    ensures forall c :: c in r <==> (IsIndex(c) && b.vals[c] == Empty && c != p && c != p1 && c != p2 &&
      SharesUnit(p1, c) && SharesUnit(p2, c))
  {
    PeersIff(p1);
    PeersIff(p2);
    set c | c in Peers(p1) && c in Peers(p2) && 0 <= c < CellCount && b.vals[c] == Empty && c != p
  }

  /** Pivot p with pincers p1 and p2 lets the common note be struck from target t. */
  predicate Hit(b: Board, p: int, p1: int, p2: int, t: int)
  {
    IsPivot(b, p) && Wing(b, p, p1, p2) && t in SeenByPincers(b, p, p1, p2) && Common(b, p1, p2) in b.notes[t]
  }

  ghost predicate HasHit(b: Board, p: int)
  {
    exists p1, p2, t :: Hit(b, p, p1, p2, t)
  }

  /** The first pivot, in grid order, that has a hit. */
  ghost function FirstPivot(b: Board): (p: int)
    requires exists q :: 0 <= q < CellCount && HasHit(b, q)
    ensures 0 <= p < CellCount && HasHit(b, p)
    ensures forall q :: 0 <= q < p ==> !HasHit(b, q)
  {
    FirstFrom(b, 0)
  }

  /** The first pivot from cell k on that has a hit. */
  ghost function FirstFrom(b: Board, k: int): (p: int)
    requires 0 <= k && exists q :: k <= q < CellCount && HasHit(b, q)
    ensures k <= p < CellCount && HasHit(b, p)
    ensures forall q :: k <= q < p ==> !HasHit(b, q)
    decreases CellCount - k
  {
    if HasHit(b, k) then k else FirstFrom(b, k + 1)
  }

  /** The note v is removed from cell t; nothing else changes. */
  function Strike(b: Board, t: int, v: int): Board
    requires IsIndex(t)
  {
    BoardState(b.vals, b.notes[t := b.notes[t] - {v}])
  }

  /** What apply_y_wing may do: when some pivot has a hit, the first such pivot strikes
      the common note of one of its wings from one target and reports a change;
      otherwise nothing changes and nothing is reported. */
  ghost predicate YWingStep(b: Board, b2: Board, ch: bool)
  {
    if exists q :: 0 <= q < CellCount && HasHit(b, q) then
      ch && exists p1, p2, t :: Hit(b, FirstPivot(b), p1, p2, t) && b2 == Strike(b, t, Common(b, p1, p2))
    else
      !ch && b2 == b
  }

  // ---------------------------------------------------------------------------
  // The search

  /** DR3.apply_y_wing on the grid: pivots in grid order; the first hit removes its
      note and ends the call. */
  method ApplyYWing(g: Grid) returns (ch: bool)
    requires g.Shape()
    modifies g.notes
    ensures YWingStep(old(g.State()), g.State(), ch)
  {
    var b: Board := BoardState(g.vals[..], g.notes[..]);
    for p := 0 to CellCount
      invariant g.State() == b
      invariant forall q :: 0 <= q < p ==> !HasHit(b, q)
    {
      var found, p1, p2, t := PivotWing(b, p);
      if found {
        var v := Only(b.notes[p1] * b.notes[p2]);
        g.notes[t] := g.notes[t] - {v};
        assert g.notes[..] == b.notes[t := b.notes[t] - {v}];
        FoundStep(b, p, p1, p2, t);
        return true;
      }
    }
    return false;
  }

  /** A hit at pivot p, with no hit before it, is the step the rule takes. */
  lemma FoundStep(b: Board, p: int, p1: int, p2: int, t: int)
    requires Hit(b, p, p1, p2, t) && forall q :: 0 <= q < p ==> !HasHit(b, q)
    ensures YWingStep(b, Strike(b, t, Common(b, p1, p2)), true)
  {
    assert HasHit(b, p);
    assert FirstPivot(b) == p;
  }

  /** The body of the pivot loop for cell p: a pivot's pincers, every pair of them once,
      and for a wing its targets. */
  method PivotWing(b: Board, p: int) returns (found: bool, p1: int, p2: int, t: int)
    requires IsIndex(p)
    ensures found ==> Hit(b, p, p1, p2, t)
    ensures !found ==> !HasHit(b, p)
  {
    if b.vals[p] != Empty || |b.notes[p]| != 2 {
      return false, 0, 0, 0;
    }
    var ps := Pincers(b, p);
    var rest := ps;
    while rest != {}
      invariant rest <= ps
      invariant forall q1, q2, c :: q1 in ps - rest ==> !Hit(b, p, q1, q2, c)
      decreases |rest|
    {
      NoMembers(rest);
      var first :| first in rest;
      ghost var done := ps - rest;
      rest := rest - {first};
      var f, second, target := WithFirst(b, p, first, rest);
      if f {
        return true, first, second, target;
      }
      forall q2, c ensures !Hit(b, p, first, q2, c) {
        if Hit(b, p, first, q2, c) {
          HitSymmetric(b, p, first, q2, c);
        }
      }
    }
    return false, 0, 0, 0;
  }

  /** The loop over pincer2 for pincer1 = p1, over the pincers after it. */
  method WithFirst(b: Board, p: int, p1: int, later: set<int>) returns (found: bool, p2: int, t: int)
    requires IsPivot(b, p) && p1 in Pincers(b, p) && later <= Pincers(b, p) && p1 !in later
    ensures found ==> Hit(b, p, p1, p2, t)
    ensures !found ==> forall q, c :: q in later ==> !Hit(b, p, p1, q, c)
  {
    var rest := later;
    while rest != {}
      invariant rest <= later
      invariant forall q, c :: q in later - rest ==> !Hit(b, p, p1, q, c)
      decreases |rest|
    {
      NoMembers(rest);
      var q :| q in rest;
      var f, c := TryPincer(b, p, p1, q);
      if f {
        return true, q, c;
      }
      rest := rest - {q};
    }
    return false, 0, 0;
  }

  /** One turn of that loop: pincer2 = q, then the first target it and pincer1 see. */
  method TryPincer(b: Board, p: int, p1: int, q: int) returns (found: bool, t: int)
    requires IsPivot(b, p) && p1 in Pincers(b, p) && q in Pincers(b, p) && p1 != q
    ensures found ==> Hit(b, p, p1, q, t)
    ensures !found ==> forall c :: !Hit(b, p, p1, q, c)
  {
    if |b.notes[p] + b.notes[p1] + b.notes[q]| == 3 && |b.notes[p1] * b.notes[q]| == 1 {
      var v := Only(b.notes[p1] * b.notes[q]);
      found, t := FindTarget(b, SeenByPincers(b, p, p1, q), v);
    } else {
      found, t := false, 0;
    }
  }

  /** The loop over the cells seen by both pincers, for the first that holds note v. */
  method FindTarget(b: Board, seen: set<int>, v: int) returns (found: bool, t: int)
    requires forall c :: c in seen ==> 0 <= c < CellCount
    ensures found ==> t in seen && v in b.notes[t]
    ensures !found ==> forall c :: c in seen ==> v !in b.notes[c]
  {
    var rest := seen;
    while rest != {}
      invariant rest <= seen
      invariant forall c :: c in seen - rest ==> v !in b.notes[c]
      decreases |rest|
    {
      NoMembers(rest);
      var c :| c in rest;
      if v in b.notes[c] {
        return true, c;
      }
      rest := rest - {c};
    }
    return false, 0;
  }

  lemma HitSymmetric(b: Board, p: int, p1: int, p2: int, t: int)
    requires Hit(b, p, p1, p2, t)
    ensures Hit(b, p, p2, p1, t)
  {
    assert b.notes[p] + b.notes[p1] + b.notes[p2] == b.notes[p] + b.notes[p2] + b.notes[p1];
    assert b.notes[p1] * b.notes[p2] == b.notes[p2] * b.notes[p1];
  }

  // ---------------------------------------------------------------------------
  // What a wing is and why its elimination is sound

  /** The other element of a two-element set. */
  lemma Other(s: set<int>, v: int) returns (w: int)
    requires |s| == 2 && v in s
    ensures w != v && s == {v, w}
  {
    var rest := s - {v};
    assert |rest| == 1;
    w := Only(rest);
    assert s == rest + {v};
  }

  /** A wing has the shape pivot {x, y}, pincers {x, z} and {y, z}: the common note z is
      not a note of the pivot, and each pincer shares a different pivot note. */
  lemma WingShape(b: Board, p: int, p1: int, p2: int)
    requires IsPivot(b, p) && Wing(b, p, p1, p2)
    ensures var z := Common(b, p1, p2);
      exists x, y :: x != y && z != x && z != y &&
        b.notes[p] == {x, y} && b.notes[p1] == {x, z} && b.notes[p2] == {y, z}
  {
    var P, A, B := b.notes[p], b.notes[p1], b.notes[p2];
    var z := Common(b, p1, p2);
    assert z in A && z in B;
    if z in P {
      var pz := Other(P, z);
      var az := Other(A, z);
      var bz := Other(B, z);
      if az == pz {
        SubsetCard({z, pz}, P * A);
      } else if bz == pz {
        SubsetCard({z, pz}, P * B);
      } else if az == bz {
        SubsetCard({z, az}, A * B);
      } else {
        SubsetCard({z, pz, az, bz}, P + A + B);
      }
      assert false;
    }
    var x := Only(P * A);
    var y := Only(P * B);
    assert x in P && x in A && y in P && y in B;
    var ax := Other(A, x);
    assert ax == z;
    var yz := Other(B, y);
    assert yz == z;
    if x == y {
      SubsetCard({x, z}, A * B);
      assert false;
    }
    var px := Other(P, x);
    assert px == y;
  }

  /** Soundness: in any board without clashes whose pivot and pincers hold one of their
      notes (notes being digits), a target does not hold the wing's common note. */
  lemma WingSound(b: Board, s: Board, p: int, p1: int, p2: int, t: int)
    requires Valid(b) && Hit(b, p, p1, p2, t)
    requires NoClash(s)
    requires s.vals[p] in b.notes[p] && s.vals[p1] in b.notes[p1] && s.vals[p2] in b.notes[p2]
    ensures s.vals[t] != Common(b, p1, p2)
  {
    var z := Common(b, p1, p2);
    WingShape(b, p, p1, p2);
    var x, y :| x != y && z != x && z != y &&
      b.notes[p] == {x, y} && b.notes[p1] == {x, z} && b.notes[p2] == {y, z};
    assert z in Digits;
    SharesUnitSymmetric(p1, t);
    SharesUnitSymmetric(p2, t);
    if s.vals[p] == x {
      assert s.vals[p1] != x;
      assert s.vals[p1] == z;
    } else {
      assert s.vals[p2] != y;
      assert s.vals[p2] == z;
    }
  }

  lemma SharesUnitSymmetric(i: int, j: int)
    ensures SharesUnit(i, j) <==> SharesUnit(j, i)
  {
  }

  /** Striking a note a cell holds removes exactly that note from exactly that cell. */
  lemma StrikeEffect(b: Board, t: int, v: int)
    requires IsIndex(t) && v in b.notes[t]
    ensures Strike(b, t, v).vals == b.vals && Shrinks(b, Strike(b, t, v)) && Strike(b, t, v) != b
    ensures b.notes[t] - Strike(b, t, v).notes[t] == {v}
    ensures forall i :: 0 <= i < CellCount && i != t ==> Strike(b, t, v).notes[i] == b.notes[i]
  {
    assert v !in Strike(b, t, v).notes[t];
  }

  /** apply_y_wing reports a change exactly when some pivot has a hit, and then the
      board changed; values never change and notes only shrink. */
  lemma YWingChanged(b: Board, b2: Board, ch: bool)
    requires YWingStep(b, b2, ch)
    ensures b2.vals == b.vals && Shrinks(b, b2)
    ensures ch <==> b2 != b
    ensures ch <==> exists q :: 0 <= q < CellCount && HasHit(b, q)
  {
    if ch {
      var p := FirstPivot(b);
      var p1, p2, t :| Hit(b, p, p1, p2, t) && b2 == Strike(b, t, Common(b, p1, p2));
      StrikeEffect(b, t, Common(b, p1, p2));
    } else {
      assert Shrinks(b, b);
    }
  }

  /** apply_y_wing only ever removes one note from one cell: the common note of a wing
      of the first pivot that has a hit, from a cell both pincers see. */
  lemma YWingRemoves(b: Board, b2: Board, ch: bool)
    requires YWingStep(b, b2, ch) && ch
    ensures exists p1, p2, t :: (Hit(b, FirstPivot(b), p1, p2, t) &&
      b.notes[t] - b2.notes[t] == {Common(b, p1, p2)} &&
      forall i :: 0 <= i < CellCount && i != t ==> b2.notes[i] == b.notes[i])
  {
    var p := FirstPivot(b);
    var p1, p2, t :| Hit(b, p, p1, p2, t) && b2 == Strike(b, t, Common(b, p1, p2));
    StrikeEffect(b, t, Common(b, p1, p2));
  }
}
