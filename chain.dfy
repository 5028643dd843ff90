/** RulesHandlerChain: the rules are tried in the order they were added; each handler
    first raises the running difficulty to its rule's tier, then applies the rule, and
    the first rule that reports a change ends the pass.  The linked list of RuleHandler
    objects that add_handler builds is modelled as the sequence of rules it was built
    from, and the recursive handle as a loop over it. */
module Chain {
  import opened Results
  import opened Boards
  import opened Grids
  import opened Rules

  /** The running difficulty after the handlers of the first n rules: d raised to each
      of their tiers in turn. */
  function MaxTier(d: int, rules: seq<DeductionRule>, n: int): int
    requires 0 <= n <= |rules|
    decreases n
  {
    if n == 0 then d
    else
      var m := MaxTier(d, rules, n - 1);
      if rules[n - 1].difficulty > m then rules[n - 1].difficulty else m
  }

  /** The running difficulty is the largest of d and the first n tiers. */
  lemma {:induction false} MaxTierIsMax(d: int, rules: seq<DeductionRule>, n: int)
    requires 0 <= n <= |rules|
    ensures MaxTier(d, rules, n) >= d
    ensures forall j :: 0 <= j < n ==> MaxTier(d, rules, n) >= rules[j].difficulty
    ensures MaxTier(d, rules, n) == d || exists j :: 0 <= j < n && MaxTier(d, rules, n) == rules[j].difficulty
    decreases n
  {
    if n > 0 {
      MaxTierIsMax(d, rules, n - 1);
      if MaxTier(d, rules, n) != d && MaxTier(d, rules, n) != rules[n - 1].difficulty {
        var j :| 0 <= j < n - 1 && MaxTier(d, rules, n - 1) == rules[j].difficulty;
      }
    }
  }

  /** With every tier at most 3 and the input difficulty between 0 and 4, the running
      difficulty stays between the input and 4. */
  lemma TiersBounded(d: int, rules: seq<DeductionRule>, n: int)
    requires 0 <= n <= |rules| && 0 <= d <= 4
    requires forall j :: 0 <= j < |rules| ==> rules[j].difficulty <= 3
    ensures d <= MaxTier(d, rules, n) <= 4
  {
    MaxTierIsMax(d, rules, n);
  }

  /** The first n rules all ran on board b and reported no change. */
  ghost predicate Quiet(rules: seq<DeductionRule>, b: Board, n: int)
    requires 0 <= n <= |rules|
  {
    forall j :: 0 <= j < n ==> RuleStep(rules[j].kind, b, b, Ok(false))
  }

  /** A pass of the chain from board b to b2 that tried n rules and returned r: either
      every rule ran and none reported a change, or the n-th rule, after n - 1 quiet
      ones, reported a change or raised, and no later rule ran. */
  ghost predicate ChainRun(rules: seq<DeductionRule>, b: Board, b2: Board, r: Result<bool>, n: int)
  {
    0 <= n <= |rules| &&
    if r == Ok(false) then n == |rules| && b2 == b && Quiet(rules, b, n)
    else 1 <= n && Quiet(rules, b, n - 1) && RuleStep(rules[n - 1].kind, b, b2, r)
  }

  /** A rule that reports no change on a board whose notes are digits leaves the board
      as it was, so the quiet prefix grows by one. */
  lemma QuietStep(rules: seq<DeductionRule>, b: Board, b2: Board, i: int)
    requires Valid(b) && 0 <= i < |rules|
    requires Quiet(rules, b, i) && RuleStep(rules[i].kind, b, b2, Ok(false))
    ensures b2 == b && Quiet(rules, b, i + 1)
  {
    RuleStepSound(rules[i].kind, b, b2, Ok(false));
  }

  /** execute: an empty chain returns (False, difficulty); otherwise the handlers run in
      order until one reports a change. */
  method Execute(rules: seq<DeductionRule>, g: Grid, difficulty: int) returns (r: Result<bool>, d: int, ghost n: int)
    requires g.Shape() && Valid(g.State())
    modifies g.vals, g.notes, set i | 0 <= i < |rules| :: rules[i]
    ensures ChainRun(rules, old(g.State()), g.State(), r, n)
    ensures d == MaxTier(difficulty, rules, n)
  {
    ghost var b := g.State();
    d := difficulty;
    for i := 0 to |rules|
      invariant g.State() == b
      invariant Quiet(rules, b, i) && d == MaxTier(difficulty, rules, i)
    {
      var tier := rules[i].GetDifficulty();
      if tier > d {
        d := tier;
      }
      r := rules[i].ApplyRule(g);
      if r != Ok(false) {
        n := i + 1;
        ChainStop(rules, b, g.State(), r, i);
        return;
      }
      QuietStep(rules, b, g.State(), i);
    }
    r, n := Ok(false), |rules|;
    ChainQuiet(rules, b);
  }

  /** The handler of rule i reports a change or raises after i quiet ones: the pass
      ends there. */
  lemma ChainStop(rules: seq<DeductionRule>, b: Board, b2: Board, r: Result<bool>, i: int)
    requires 0 <= i < |rules| && Quiet(rules, b, i)
    requires RuleStep(rules[i].kind, b, b2, r) && r != Ok(false)
    ensures ChainRun(rules, b, b2, r, i + 1)
  {
  }

  /** Every handler ran and none reported a change. */
  lemma ChainQuiet(rules: seq<DeductionRule>, b: Board)
    requires Quiet(rules, b, |rules|)
    ensures ChainRun(rules, b, b, Ok(false), |rules|)
  {
  }

  /** A pass only makes deductions and keeps the notes digits; it reports a change
      exactly when the board changed, which happens only through the rule that ended
      the pass; when it reports none, every rule was tried. */
  lemma ChainSound(rules: seq<DeductionRule>, b: Board, b2: Board, r: Result<bool>, n: int)
    requires Valid(b) && ChainRun(rules, b, b2, r, n)
    ensures Deduced(b, b2) && Valid(b2)
    ensures r.Ok? ==> (r.value <==> b2 != b)
    ensures r == Ok(false) ==> n == |rules|
  {
    if r == Ok(false) {
      assert Shrinks(b, b);
    } else {
      RuleStepSound(rules[n - 1].kind, b, b2, r);
    }
  }

  /** An empty chain changes nothing, reports nothing, and keeps the difficulty. */
  lemma EmptyChain(b: Board, b2: Board, r: Result<bool>, n: int, d: int)
    requires ChainRun([], b, b2, r, n)
    ensures r == Ok(false) && b2 == b && n == 0 && MaxTier(d, [], n) == d
  {
  }
}
