/** DeductionRule: the base class of the seven strategies.  A rule has a name, a
    difficulty tier and a has_changed flag; apply_rule resets the flag, runs the
    strategy on the grid and returns the flag the strategy left. */
module Rules {
  import opened Cells
  import opened Results
  import opened Boards
  import opened Grids
  import NakedRules
  import HiddenRules
  import YWing

  /** The concrete strategies: DR1_1, DR1_2, DR1_3, DR2_1, DR2_2, DR2_3 and DR3. */
  datatype RuleKind =
    | NakedSingles | NakedPairs | NakedTriples
    | HiddenSingles | HiddenPairs | HiddenTriples
    | YWingRule

  /** The name each subclass gives itself. */
  function RuleName(kind: RuleKind): string
  {
    match kind
    case NakedSingles => "Naked Singles"
    case NakedPairs => "Naked Pair"
    case NakedTriples => "Naked Triple"
    case HiddenSingles => "Hidden Singles"
    case HiddenPairs => "Hidden Pairs"
    case HiddenTriples => "Hidden Triples"
    case YWingRule => "Y Wing"
  }

  /** The tier a subclass falls back to when constructed without one (`d or ...`). */
  function DefaultTier(kind: RuleKind): (d: int)
    ensures 1 <= d <= 3
    ensures d == 1 <==> kind == NakedSingles || kind == HiddenSingles
    ensures d == 3 <==> kind == HiddenTriples || kind == YWingRule
  {
    match kind
    case NakedSingles => 1
    case NakedPairs => 2
    case NakedTriples => 2
    case HiddenSingles => 1
    case HiddenPairs => 2
    case HiddenTriples => 3
    case YWingRule => 3
  }

  /** `d or default`: a zero tier falls back to the subclass's own. */
  function TierOr(kind: RuleKind, d: int): (r: int)
    ensures d != 0 ==> r == d
    ensures d == 0 ==> 1 <= r <= 3
  {
    if d != 0 then d else DefaultTier(kind)
  }

  /** What one run of a strategy may do to the board: r is the value apply_rule returns,
      or the exception it raises. */
  ghost predicate RuleStep(kind: RuleKind, b: Board, b2: Board, r: Result<bool>)
  {
    match kind
    case NakedSingles => Effect(r, b2) == NakedRules.NakedRule(NakedRules.Singles, b)
    case NakedPairs => Effect(r, b2) == NakedRules.NakedRule(NakedRules.Pairs, b)
    case NakedTriples => Effect(r, b2) == NakedRules.NakedRule(NakedRules.Triples, b)
    case HiddenSingles => Pass(r == Ok(true), b2) == HiddenRules.HiddenRule(HiddenRules.Singles, b) && r.Ok?
    case HiddenPairs => Pass(r == Ok(true), b2) == HiddenRules.HiddenRule(HiddenRules.Pairs, b) && r.Ok?
    case HiddenTriples => Pass(r == Ok(true), b2) == HiddenRules.HiddenRule(HiddenRules.Triples, b) && r.Ok?
    case YWingRule => r.Ok? && YWing.YWingStep(b, b2, r.value)
  }

  /** On a board whose notes are digits, every strategy only makes deductions (fills
      empty cells with one of their notes, shrinks notes), keeps the notes digits, and
      when it returns, its flag says exactly whether the board changed. */
  lemma RuleStepSound(kind: RuleKind, b: Board, b2: Board, r: Result<bool>)
    requires Valid(b) && RuleStep(kind, b, b2, r)
    ensures Deduced(b, b2) && Valid(b2)
    ensures r.Ok? ==> (r.value <==> b2 != b)
  {
    match kind
    case NakedSingles => NakedRules.NakedRuleProgress(NakedRules.Singles, b);
    case NakedPairs => NakedRules.NakedRuleProgress(NakedRules.Pairs, b);
    case NakedTriples => NakedRules.NakedRuleProgress(NakedRules.Triples, b);
    case HiddenSingles => HiddenRules.HiddenRuleSound(HiddenRules.Singles, b);
    case HiddenPairs => HiddenRules.HiddenRuleSound(HiddenRules.Pairs, b);
    case HiddenTriples => HiddenRules.HiddenRuleSound(HiddenRules.Triples, b);
    case YWingRule => YWing.YWingChanged(b, b2, r.value);
  }

  class DeductionRule {
    const kind: RuleKind
    const difficulty: int
    var hasChanged: bool

    /** A subclass's __init__(d): its name, and the tier d or its own default. */
    constructor(kind: RuleKind, d: int)
      ensures this.kind == kind && difficulty == TierOr(kind, d) && !hasChanged
    {
      this.kind := kind;
      difficulty := TierOr(kind, d);
      hasChanged := false;
    }

    /** get_name */
    function GetName(): (r: string)
      ensures r == RuleName(kind)
    {
      RuleName(kind)
    }

    /** get_difficulty */
    function GetDifficulty(): (r: int)
      ensures r == difficulty
    {
      difficulty
    }

    /** apply_rule: the flag is reset, the strategy runs, and the flag it left is
        returned; an exception of the strategy propagates.  The only exception, an
        emptied note set, is raised right after a note was removed and the flag set, so
        the flag is left set. */
    method ApplyRule(g: Grid) returns (r: Result<bool>)
      requires g.Shape()
      modifies this, g.vals, g.notes
      ensures RuleStep(kind, old(g.State()), g.State(), r)
      ensures r.Ok? ==> hasChanged == r.value
      ensures r.Err? ==> hasChanged
    {
      hasChanged := false;
      match kind {
        case NakedSingles =>
          r := NakedRules.ApplyNaked(g, NakedRules.Singles, hasChanged);
        case NakedPairs =>
          r := NakedRules.ApplyNaked(g, NakedRules.Pairs, hasChanged);
        case NakedTriples =>
          r := NakedRules.ApplyNaked(g, NakedRules.Triples, hasChanged);
        case HiddenSingles =>
          var ch := HiddenRules.ApplyHidden(g, HiddenRules.Singles, hasChanged);
          r := Ok(ch);
        case HiddenPairs =>
          var ch := HiddenRules.ApplyHidden(g, HiddenRules.Pairs, hasChanged);
          r := Ok(ch);
        case HiddenTriples =>
          var ch := HiddenRules.ApplyHidden(g, HiddenRules.Triples, hasChanged);
          r := Ok(ch);
        case YWingRule =>
          var ch := YWing.ApplyYWing(g);
          r := Ok(ch);
      }
      if r.Ok? {
        hasChanged := r.value;
      } else {
        hasChanged := true;
      }
    }
  }
}
