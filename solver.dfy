/** SudokuSolver: loads a grid, refuses an incorrect one, builds its rules through the
    factory and runs them through the chain until the grid is complete, incorrect, or
    stuck.  When stuck it may ask the user for one value; the user is modelled as the
    sequence of answers they would give, each a row, a column and a value in 1..9. */
module Solver {
  import opened Cells
  import opened Results
  import opened Boards
  import opened Grids
  import opened Rules
  import Factory
  import Chain
  import Utils

  /** len(DIFFICULTIES): the highest level a stuck solve raises the difficulty to. */
  const MaxLevel := 4

  /** An answer of the user, as validate_input lets it through. */
  datatype Answer = Answer(row: int, col: int, val: int)

  predicate InRange(a: Answer)
  {
    1 <= a.row <= 9 && 1 <= a.col <= 9 && 1 <= a.val <= 9
  }

  predicate AllInRange(answers: seq<Answer>)
  {
    forall k :: 0 <= k < |answers| ==> InRange(answers[k])
  }

  /** The cell an answer names: get_cell(row - 1, col - 1). */
  function Target(a: Answer): (i: int)
    requires InRange(a)
    ensures IsIndex(i)
  {
    CellAt(a.row - 1, a.col - 1).value
  }

  /** The target lies in the answer's row and column. */
  lemma TargetCell(a: Answer)
    requires InRange(a)
    ensures RowOf(Target(a)) == a.row - 1 && ColOf(Target(a)) == a.col - 1
  {
  }

  /** The first answer from position i on that names an empty cell of b, if any. */
  function FirstOpen(b: Board, answers: seq<Answer>, i: nat): (j: Option<nat>)
    requires i <= |answers| && AllInRange(answers)
    ensures j.Some? ==> i <= j.value < |answers|
    decreases |answers| - i
  {
    if i == |answers| then None
    else if b.vals[Target(answers[i])] == Empty then Some(i)
    else FirstOpen(b, answers, i + 1)
  }

  /** FirstOpen finds the first answer from i on that names an empty cell, and finds
      none exactly when every such answer names a filled cell. */
  lemma FirstOpenIff(b: Board, answers: seq<Answer>, i: nat)
    requires i <= |answers| && AllInRange(answers)
    ensures var j := FirstOpen(b, answers, i);
      j.Some? ==> (b.vals[Target(answers[j.value])] == Empty &&
        forall k :: i <= k < j.value ==> b.vals[Target(answers[k])] != Empty)
    ensures FirstOpen(b, answers, i).None? <==> forall k :: i <= k < |answers| ==> b.vals[Target(answers[k])] != Empty
  {
    FirstOpenSome(b, answers, i);
    FirstOpenNone(b, answers, i);
  }

  /** The found answer names an empty cell and every one before it a filled cell. */
  lemma {:induction false} FirstOpenSome(b: Board, answers: seq<Answer>, i: nat)
    requires i <= |answers| && AllInRange(answers)
    ensures var j := FirstOpen(b, answers, i);
      j.Some? ==> (b.vals[Target(answers[j.value])] == Empty &&
        forall k :: i <= k < j.value ==> b.vals[Target(answers[k])] != Empty)
    decreases |answers| - i
  {
    if i < |answers| && b.vals[Target(answers[i])] != Empty {
      FirstOpenSome(b, answers, i + 1);
    }
  }

  /** None is found exactly when every remaining answer names a filled cell. */
  lemma {:induction false} FirstOpenNone(b: Board, answers: seq<Answer>, i: nat)
    requires i <= |answers| && AllInRange(answers)
    ensures FirstOpen(b, answers, i).None? <==> forall k :: i <= k < |answers| ==> b.vals[Target(answers[k])] != Empty
    decreases |answers| - i
  {
    if i < |answers| && b.vals[Target(answers[i])] != Empty {
      FirstOpenNone(b, answers, i + 1);
    }
  }

  /** prompt_user_for_input, as evidently intended: answers are read from position i on
      until one names an empty cell, which takes the answer's value; the board it
      leaves and the position after that answer, or InputExhausted. */
  function Prompt(b: Board, answers: seq<Answer>, i: nat): Result<(Board, nat)>
    requires i <= |answers| && AllInRange(answers)
  {
    match FirstOpen(b, answers, i)
    case None => Err(InputExhausted)
    case Some(j) => Ok((SetValueEffect(b, Target(answers[j]), answers[j].val).board, j + 1))
  }

  /** One call of set_value on answer i's cell: the prompt from i is that call's board
      when the cell was empty, and the prompt from i + 1 otherwise. */
  lemma PromptFrom(b: Board, answers: seq<Answer>, i: nat, p: Pass, rest: Result<(Board, nat)>)
    requires i < |answers| && AllInRange(answers)
    requires p == SetValueEffect(b, Target(answers[i]), answers[i].val)
    requires !p.changed ==> rest == Prompt(b, answers, i + 1)
    ensures Prompt(b, answers, i) == if p.changed then Ok((p.board, i + 1)) else rest
  {
  }

  /** With no answer left, the prompt gives up. */
  lemma PromptEnd(b: Board, answers: seq<Answer>)
    requires AllInRange(answers)
    ensures Prompt(b, answers, |answers|) == Err(InputExhausted)
  {
  }

  /** The prompt gives up exactly when every remaining answer names a filled cell. */
  lemma PromptErrIff(b: Board, answers: seq<Answer>, i: nat)
    requires i <= |answers| && AllInRange(answers)
    ensures Prompt(b, answers, i).Err? <==>
      forall k :: i <= k < |answers| ==> b.vals[Target(answers[k])] != Empty
    ensures Prompt(b, answers, i).Err? ==> Prompt(b, answers, i).error == InputExhausted
  {
    FirstOpenIff(b, answers, i);
  }

  /** Otherwise it places the first answer that names an empty cell, skipping those
      before it. */
  lemma PromptPlaces(b: Board, answers: seq<Answer>, i: nat)
    requires i <= |answers| && AllInRange(answers) && Prompt(b, answers, i).Ok?
    ensures var j := Prompt(b, answers, i).value.1;
      i < j <= |answers| && b.vals[Target(answers[j - 1])] == Empty &&
      (forall k :: i <= k < j - 1 ==> b.vals[Target(answers[k])] != Empty) &&
      Prompt(b, answers, i).value.0 == Assign(b, Target(answers[j - 1]), answers[j - 1].val)
  {
    FirstOpenIff(b, answers, i);
  }

  /** A placed answer fills an empty cell and only shrinks notes, so the notes stay
      digits and the board strictly shrinks. */
  lemma PromptShrinks(b: Board, answers: seq<Answer>, i: nat)
    requires i <= |answers| && AllInRange(answers) && Prompt(b, answers, i).Ok?
    ensures Shrinks(b, Prompt(b, answers, i).value.0)
    ensures Prompt(b, answers, i).value.0 != b
    ensures Valid(b) ==> Valid(Prompt(b, answers, i).value.0)
  {
    PromptPlaces(b, answers, i);
    var j := Prompt(b, answers, i).value.1;
    AssignShrinks(b, Target(answers[j - 1]), answers[j - 1].val);
  }

  /** prompt_user_for_input as written: it reads a row, a column and a value, then calls
      set_value on the SudokuGrid, which has no such method. So with an answer left it
      raises AttributeError before anything changes, and with none left it waits for
      input like the corrected prompt; it never places a value. */
  function PromptAsWritten(b: Board, answers: seq<Answer>, i: nat): (r: Result<(Board, nat)>)
    requires i <= |answers|
    ensures i < |answers| ==> r == Err(MissingAttribute)
    ensures i == |answers| ==> r == Err(InputExhausted)
    ensures r.Err?
  {
    if i < |answers| then Err(MissingAttribute) else Err(InputExhausted)
  }

  /** On a grid whose first cell is empty, the answer (1, 1, 5) raises as written, while
      the intended prompt puts 5 in that cell. */
  lemma PromptFinding(b: Board)
    requires b.vals[0] == Empty
    ensures PromptAsWritten(b, [Answer(1, 1, 5)], 0) == Err(MissingAttribute)
    ensures Prompt(b, [Answer(1, 1, 5)], 0).Ok?
    ensures Prompt(b, [Answer(1, 1, 5)], 0).value.0.vals[0] == 5
  {
    var a := Answer(1, 1, 5);
    assert Target(a) == 0;
    assert SetValueEffect(b, 0, 5).changed;
  }

  /** The prompt as written and the intended one agree exactly when no answer is left:
      with an answer left the written one raises, while the intended one places a value
      or asks again. */
  lemma PromptAsWrittenIff(b: Board, answers: seq<Answer>, i: nat)
    requires i <= |answers| && AllInRange(answers)
    ensures PromptAsWritten(b, answers, i) == Prompt(b, answers, i) <==> i == |answers|
  {
    if i == |answers| {
      PromptEnd(b, answers);
    } else {
      PromptErrIff(b, answers, i);
    }
  }

  /** What a turn of solve's loop ends with: go on from the given answer, or return. */
  datatype Turn = Again(next: nat) | Stop(result: Result<bool>)

  /** The checks that close a turn once the grid has moved: an incorrect grid returns
      False, a complete one True, and otherwise the loop goes on from answer next. */
  function Checked(b: Board, next: nat): (s: Turn)
    ensures s == Stop(Ok(false)) <==> !IsCorrect(b)
    ensures s == Stop(Ok(true)) <==> IsCorrect(b) && IsComplete(b)
    ensures s.Again? <==> IsCorrect(b) && !IsComplete(b)
    ensures s.Again? ==> s.next == next
  {
    if !IsCorrect(b) then Stop(Ok(false)) else if IsComplete(b) then Stop(Ok(true)) else Again(next)
  }

  /** prompt_user_for_input from answer i on: the answer's cell takes its value, and
      when it was not empty the prompt calls itself for the next answer. */
  method PromptOn(g: Grid, answers: seq<Answer>, i: nat) returns (r: Result<nat>)
    requires g.Shape() && i <= |answers| && AllInRange(answers)
    modifies g.vals, g.notes
    ensures r.Err? ==> Prompt(old(g.State()), answers, i) == Err(r.error) && g.State() == old(g.State())
    ensures r.Ok? ==> Prompt(old(g.State()), answers, i) == Ok((g.State(), r.value))
    decreases |answers| - i
  {
    ghost var b := g.State();
    if i == |answers| {
      PromptEnd(b, answers);
      return Err(InputExhausted);
    }
    var ok := SetAnswer(g, answers[i]);
    if ok {
      PromptFrom(b, answers, i, Pass(true, g.State()), Err(InputExhausted));
      return Ok(i + 1);
    }
    ghost var p := Pass(false, g.State());
    r := PromptOn(g, answers, i + 1);
    ghost var rest := if r.Ok? then Ok((g.State(), r.value)) else Err(r.error);
    PromptFrom(b, answers, i, p, rest);
  }

  /** self.sudoku_grid.get_cell(row - 1, col - 1).set_value(val) */
  method SetAnswer(g: Grid, a: Answer) returns (ok: bool)
    requires g.Shape() && InRange(a)
    modifies g.vals, g.notes
    ensures Pass(ok, g.State()) == SetValueEffect(old(g.State()), Target(a), a.val)
  {
    var cell := g.GetCell(a.row - 1, a.col - 1);
    ok := g.SetValue(cell.value, a.val);
  }

  class SudokuSolver {
    const grid: Grid
    var difficulty: int
    const rules: seq<DeductionRule>
    const promptUser: bool

    /** The grid has its shape and digit notes, the difficulty is a level between 0 and
        4, and every rule's tier lies between 1 and 3. */
    ghost predicate Inv()
      reads this, grid.vals, grid.notes
    {
      grid.Shape() && Valid(grid.State()) && 0 <= difficulty <= MaxLevel &&
      forall j :: 0 <= j < |rules| ==> 1 <= rules[j].difficulty <= 3
    }

    constructor(grid: Grid, rules: seq<DeductionRule>, promptUser: bool)
      requires grid.Shape() && Valid(grid.State())
      requires forall j :: 0 <= j < |rules| ==> 1 <= rules[j].difficulty <= 3
      ensures this.grid == grid && this.rules == rules && this.promptUser == promptUser
      ensures difficulty == 0 && Inv()
    {
      this.grid := grid;
      this.rules := rules;
      this.promptUser := promptUser;
      difficulty := 0;
    }

    /** apply_rules: one pass of the chain, whose difficulty replaces the solver's; when a
        rule raises, the assignment is never reached and the difficulty stays. */
    method ApplyRules() returns (r: Result<bool>, ghost n: int)
      requires Inv()
      modifies this, grid.vals, grid.notes, set j | 0 <= j < |rules| :: rules[j]
      ensures Inv()
      ensures Chain.ChainRun(rules, old(grid.State()), grid.State(), r, n)
      ensures r.Ok? ==> difficulty == Chain.MaxTier(old(difficulty), rules, n)
      ensures r.Err? ==> difficulty == old(difficulty)
      ensures Deduced(old(grid.State()), grid.State())
      ensures r.Ok? ==> (r.value <==> grid.State() != old(grid.State()))
    {
      ghost var b := grid.State();
      var d;
      r, d, n := Chain.Execute(rules, grid, difficulty);
      Chain.ChainSound(rules, b, grid.State(), r, n);
      Chain.TiersBounded(difficulty, rules, n);
      if r.Ok? {
        difficulty := d;
      }
    }

    /** prompt_user_for_input, with the value set on the cell get_cell returns; a
        refused answer (a filled cell) asks again. */
    method PromptUserForInput(answers: seq<Answer>, i: nat) returns (r: Result<nat>)
      requires grid.Shape() && i <= |answers| && AllInRange(answers)
      modifies grid.vals, grid.notes
      ensures r.Err? ==> Prompt(old(grid.State()), answers, i) == Err(r.error) && grid.State() == old(grid.State())
      ensures r.Ok? ==> Prompt(old(grid.State()), answers, i) == Ok((grid.State(), r.value))
    {
      r := PromptOn(grid, answers, i);
    }

    /** The stuck branch with prompting on: the difficulty goes up one level, to at
        most 4, then the user places one value. */
    method Unstick(answers: seq<Answer>, i: nat) returns (r: Result<nat>)
      requires Inv() && i <= |answers| && AllInRange(answers)
      modifies this, grid.vals, grid.notes
      ensures Inv()
      ensures difficulty == if old(difficulty) < MaxLevel then old(difficulty) + 1 else old(difficulty)
      ensures r.Err? ==> Prompt(old(grid.State()), answers, i) == Err(r.error) && grid.State() == old(grid.State())
      ensures r.Err? ==> r.error == InputExhausted
      ensures r.Ok? ==> Prompt(old(grid.State()), answers, i) == Ok((grid.State(), r.value))
      ensures r.Ok? ==> i < r.value <= |answers|
      ensures r.Ok? ==> Shrinks(old(grid.State()), grid.State()) && grid.State() != old(grid.State())
    {
      if difficulty < MaxLevel {
        difficulty := difficulty + 1;
      }
      ghost var b := grid.State();
      r := PromptUserForInput(answers, i);
      if r.Err? {
        PromptErrIff(b, answers, i);
      } else {
        PromptPlaces(b, answers, i);
        PromptShrinks(b, answers, i);
      }
    }

    /** One turn of solve's loop: a pass of the chain, the stuck branches, then the
        checks for an incorrect and for a complete grid.  Either the loop goes on with
        the next unread answer, or solve returns. */
    method Round(answers: seq<Answer>, i: nat) returns (s: Turn, ghost pass: Result<bool>, ghost mid: Board, ghost n: int)
      requires Inv() && i <= |answers| && AllInRange(answers)
      modifies this, grid.vals, grid.notes, set j | 0 <= j < |rules| :: rules[j]
      ensures Inv()
      ensures Chain.ChainRun(rules, old(grid.State()), mid, pass, n)
      ensures var d := if pass.Ok? then Chain.MaxTier(old(difficulty), rules, n) else old(difficulty);
        difficulty == if pass == Ok(false) && promptUser && d < MaxLevel then d + 1 else d
      ensures pass.Err? ==> s == Stop(pass) && grid.State() == mid
      ensures pass == Ok(true) ==> grid.State() == mid && s == Checked(mid, i)
      ensures pass == Ok(false) && !promptUser ==> grid.State() == mid && s == Stop(Ok(IsComplete(mid)))
      ensures pass == Ok(false) && promptUser && Prompt(mid, answers, i).Err? ==>
        grid.State() == mid && s == Stop(Err(Prompt(mid, answers, i).error)) && s == Stop(Err(InputExhausted))
      ensures pass == Ok(false) && promptUser && Prompt(mid, answers, i).Ok? ==>
        grid.State() == Prompt(mid, answers, i).value.0 && s == Checked(grid.State(), Prompt(mid, answers, i).value.1)
      ensures s.Stop? && s.result.Ok? && IsCorrect(grid.State()) ==> (s.result.value <==> IsComplete(grid.State()))
      ensures s.Stop? && s.result.Err? ==>
        (promptUser && s.result.error == InputExhausted) || (pass.Err? && s.result == pass)
      ensures Shrinks(old(grid.State()), grid.State())
      ensures !promptUser ==> Deduced(old(grid.State()), grid.State())
      ensures s.Again? ==> i <= s.next <= |answers| && (i < s.next || grid.State() != old(grid.State()))
      ensures s.Again? ==> IsCorrect(grid.State()) && !IsComplete(grid.State())
      ensures s == Stop(Ok(true)) ==> IsComplete(grid.State())
      ensures s == Stop(Ok(true)) && IsCorrect(old(grid.State())) ==> IsCorrect(grid.State())
      ensures s == Stop(Ok(false)) ==>
        !IsCorrect(grid.State()) ||
        (!promptUser && !IsComplete(grid.State()) && Chain.Quiet(rules, grid.State(), |rules|))
    {
      ghost var before := grid.State();
      var changed;
      changed, n := ApplyRules();
      pass, mid := changed, grid.State();
      if changed.Err? {
        return Stop(changed), pass, mid, n;
      }
      var next := i;
      if !changed.value && promptUser {
        var placed := Unstick(answers, i);
        if placed.Err? {
          return Stop(Err(placed.error)), pass, mid, n;
        }
        ShrinksTrans(before, mid, grid.State());
        next := placed.value;
      } else if !changed.value {
        var complete := grid.IsComplete();
        return Stop(Ok(complete)), pass, mid, n;
      }
      var correct := grid.IsCorrect();
      if !correct {
        return Stop(Ok(false)), pass, mid, n;
      }
      var complete := grid.IsComplete();
      if complete {
        return Stop(Ok(true)), pass, mid, n;
      }
      return Again(next), pass, mid, n;
    }

    /** solve: turns of the loop until the grid is incorrect (false), complete (true)
        or stuck; stuck with prompting on, the difficulty goes up one level (to at most
        4) and the user places one value; stuck with prompting off, the result is
        whether the grid is complete.  Each turn either reads an answer or shrinks the
        board, so the loop ends. */
    method Solve(answers: seq<Answer>) returns (r: Result<bool>)
      requires Inv() && AllInRange(answers)
      modifies this, grid.vals, grid.notes, set j | 0 <= j < |rules| :: rules[j]
      ensures Inv()
      ensures Shrinks(old(grid.State()), grid.State())
      ensures !promptUser ==> Deduced(old(grid.State()), grid.State())
      ensures r == Ok(true) ==> IsComplete(grid.State())
      ensures r == Ok(true) && IsCorrect(old(grid.State())) ==> IsCorrect(grid.State())
      ensures r == Ok(false) ==>
        !IsCorrect(grid.State()) ||
        (!promptUser && !IsComplete(grid.State()) && Chain.Quiet(rules, grid.State(), |rules|))
      ensures r.Ok? && IsCorrect(grid.State()) ==> (r.value <==> IsComplete(grid.State()))
      ensures r.Err? ==>
        (promptUser && r.error == InputExhausted) ||
        exists b: Board, n: int :: Chain.ChainRun(rules, b, grid.State(), Err(r.error), n)
    {
      ghost var b0 := grid.State();
      var i := 0;
      while true
        invariant Inv() && 0 <= i <= |answers|
        invariant Shrinks(b0, grid.State())
        invariant !promptUser ==> Deduced(b0, grid.State())
        invariant IsCorrect(b0) ==> IsCorrect(grid.State())
        decreases |answers| - i, Measure(grid.State())
      {
        ghost var before := grid.State();
        var turn;
        ghost var pass, mid, n;
        turn, pass, mid, n := Round(answers, i);
        ShrinksTrans(b0, before, grid.State());
        if !promptUser {
          DeducedTrans(b0, before, grid.State());
        }
        if turn.Stop? {
          if pass.Err? {
            assert Chain.ChainRun(rules, before, grid.State(), Err(turn.result.error), n);
          }
          return turn.result;
        }
        MeasureShrinks(before, grid.State());
        i := turn.next;
      }
    }
  }

  /** A rule create_rule builds has a tier between 1 and 3. */
  lemma SpecTier(name: string, kind: RuleKind, tier: int)
    requires Factory.CreateSpec(name) == Ok((kind, tier))
    ensures 1 <= tier <= 3
  {
    Factory.CreateSpecIff(name);
  }

  /** The list comprehension of __init__: create_rule for each name in order; the
      first unknown name raises. */
  method CreateRules(names: seq<string>) returns (r: Result<seq<DeductionRule>>)
    ensures r.Ok? ==> |r.value| == |names|
    ensures r.Ok? ==> forall k :: 0 <= k < |names| ==>
      Factory.CreateSpec(names[k]) == Ok((r.value[k].kind, r.value[k].difficulty))
    ensures r.Ok? ==> forall k :: 0 <= k < |names| ==> 1 <= r.value[k].difficulty <= 3
    ensures r.Err? ==> exists k :: (0 <= k < |names| && Factory.CreateSpec(names[k]) == Err(r.error) &&
      forall j :: 0 <= j < k ==> Factory.CreateSpec(names[j]).Ok?)
  {
    var rules: seq<DeductionRule> := [];
    for k := 0 to |names|
      invariant |rules| == k
      invariant forall j :: 0 <= j < k ==> Factory.CreateSpec(names[j]) == Ok((rules[j].kind, rules[j].difficulty))
      invariant forall j :: 0 <= j < k ==> 1 <= rules[j].difficulty <= 3
    {
      var rule := Factory.CreateRule(names[k]);
      if rule.Err? {
        assert Factory.CreateSpec(names[k]) == Err(rule.error);
        return Err(rule.error);
      }
      SpecTier(names[k], rule.value.kind, rule.value.difficulty);
      rules := rules + [rule.value];
    }
    return Ok(rules);
  }

  /** __init__: read the grid, refuse it when incorrect, then build the named rules
      (all of the factory's when none is named); the difficulty starts at 0. */
  method NewSolver(lines: seq<string>, names: seq<string>, promptUser: bool) returns (r: Result<SudokuSolver>)
    ensures Utils.ParseLines(lines).Err? ==> r == Err(Utils.ParseLines(lines).error)
    ensures Utils.ParseLines(lines).Ok? && !IsCorrect(Initial(Utils.ParseLines(lines).value)) ==>
      r == Err(IncorrectGrid)
    ensures r.Ok? ==> (Utils.ParseLines(lines).Ok? && fresh(r.value) &&
      r.value.Inv() && r.value.difficulty == 0 && r.value.promptUser == promptUser &&
      r.value.grid.State() == Initial(Utils.ParseLines(lines).value) && IsCorrect(r.value.grid.State()) &&
      Chosen(names, r.value.rules))
    ensures r.Err? && Utils.ParseLines(lines).Ok? && IsCorrect(Initial(Utils.ParseLines(lines).value)) ==>
      names != [] && exists k :: 0 <= k < |names| && Factory.CreateSpec(names[k]) == Err(r.error)
  {
    var grid := LoadGrid(lines);
    if grid.Err? {
      return Err(grid.error);
    }
    var rules := ChooseRules(names);
    if rules.Err? {
      return Err(rules.error);
    }
    var solver := new SudokuSolver(grid.value, rules.value, promptUser);
    return Ok(solver);
  }

  /** The grid of __init__: the input read from the lines, refused when incorrect. */
  method LoadGrid(lines: seq<string>) returns (r: Result<Grid>)
    ensures Utils.ParseLines(lines).Err? ==> r == Err(Utils.ParseLines(lines).error)
    ensures Utils.ParseLines(lines).Ok? && !IsCorrect(Initial(Utils.ParseLines(lines).value)) ==>
      r == Err(IncorrectGrid)
    ensures r.Err? ==> Utils.ParseLines(lines).Err? || !IsCorrect(Initial(Utils.ParseLines(lines).value))
    ensures r.Ok? ==> (Utils.ParseLines(lines).Ok? && r.value.Shape() &&
      r.value.State() == Initial(Utils.ParseLines(lines).value) && IsCorrect(r.value.State()) &&
      Valid(r.value.State()))
  {
    var input := Utils.ReadInput(lines);
    if input.Err? {
      return Err(input.error);
    }
    Utils.ParseLinesIff(lines);
    var g := NewGrid(input.value);
    var grid := g.value;
    var correct := grid.IsCorrect();
    if !correct {
      return Err(IncorrectGrid);
    }
    InitialNotes(input.value, 0);
    return Ok(grid);
  }

  /** The rules __init__ builds from the names: one per name, in order, or the
      factory's table in its order when no name is given; every tier is 1 to 3. */
  ghost predicate Chosen(names: seq<string>, rules: seq<DeductionRule>)
  {
    (forall j :: 0 <= j < |rules| ==> 1 <= rules[j].difficulty <= 3) &&
    (names == [] ==> (|rules| == |Factory.Classed(Factory.Table)| &&
      forall k :: 0 <= k < |rules| ==> (rules[k].kind, rules[k].difficulty) == Factory.Classed(Factory.Table)[k])) &&
    (names != [] ==> (|rules| == |names| &&
      forall k :: 0 <= k < |names| ==> Factory.CreateSpec(names[k]) == Ok((rules[k].kind, rules[k].difficulty))))
  }

  /** The rules of __init__: those named, in order, or all of the factory's when none
      is named. */
  method ChooseRules(names: seq<string>) returns (r: Result<seq<DeductionRule>>)
    ensures r.Ok? ==> Chosen(names, r.value)
    ensures r.Err? ==> names != [] && exists k :: 0 <= k < |names| && Factory.CreateSpec(names[k]) == Err(r.error)
  {
    if names != [] {
      r := CreateRules(names);
    } else {
      var rules := Factory.CreateAllRules();
      Factory.TiersInRange();
      r := Ok(rules);
    }
  }
}
