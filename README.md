# Sudoku solver by human deduction rules — a Dafny model

This project models a Sudoku solver that never guesses. A 9x9 grid of `Cell`s is kept
with each empty cell's *notes*, meaning its candidate values. A chain of deduction rules
runs over the grid:

- naked singles, pairs and triples;
- hidden singles, pairs and triples;
- Y-Wing.

Each pass of the chain stops at the first rule that changes the grid. The grid's
difficulty level is raised to the tier of every rule the chain reaches. When no rule
changes anything, the solver either asks the user to place a value or gives up.

The model follows the program file by file:

- `cells.dfy` (module `Cells`): cell indices, the row, column and zone views, and a
  cell's observer sets (`Cell.py`).
- `board.dfy` (module `Boards`): the grid as a value. It covers the initial notes,
  `set_value` with `update_cells`, `is_complete`, `is_correct` and `get_cell`, plus the
  "progress" relations the rules are proved against.
- `grid.dfy` (module `Grids`): the `SudokuGrid` object. Cells are held as an arena of
  two arrays, values and notes, and each method is proved against the matching
  function on board values.
- `utils.dfy` (module `Utils`): `read_input` (over the file's lines), `url_convert`
  and `is_unique`.
- `rules.dfy`, `naked.dfy`, `hidden.dfy`, `ywing.dfy`: the `DeductionRule` base class
  and the DR1, DR2 and DR3 strategies.
- `factory.dfy` and `chain.dfy`: `DeductionRuleFactory` and `RulesHandlerChain`.
- `solver.dfy` (module `Solver`): `SudokuSolver` with its constructor, `apply_rules`,
  `solve` and `prompt_user_for_input`.
- `results.dfy`: the exceptions the program raises, as `Result` error values.

Every state-changing routine is an imperative method over the arena. Its `ensures`
ties the new state to a function of the old one. The lemmas then prove what the design
promises about those functions. For example, every rule only deduces, which means it:

- fills an empty cell only with one of its notes;
- only removes notes;
- keeps the notes among 1..9;
- reports "changed" exactly when the grid changed.

The prompt's answers come from a sequence given as a parameter, standing in for the
user typing them.

## Model

| member | source | states |
|---|---|---|
| Cells.ZoneIndex | src/Cell.py:95 | a cell in row 0..8 and column 0..8 has a zone index in 0..8 |
| Cells.ObserverSetsIff | src/Cell.py:28-34 | the observer's row, col and zone sets hold exactly the cells sharing that row, column or zone |
| Cells.PeersIff | src/Cell.py:37-38 | `related_cells` is exactly the other cells that share a unit with the cell |
| Cells.PeersSymmetric | src/Cell.py:37-38 | j is related to i exactly when i is related to j |
| Cells.BuildViews | src/SudokuGrid.py:30-47 | the grid's rows, cols and zones lists are the row, column and zone views |
| Cells.RowViewIff | src/SudokuGrid.py:35-44 | row view r holds exactly the cells in row r |
| Cells.ColViewIff | src/SudokuGrid.py:35-44 | column view c holds exactly the cells in column c |
| Cells.ZoneViewAt | src/SudokuGrid.py:45-47 | slot t of zone k is the cell at row 3*(k/3)+t/3, column 3*(k%3)+t%3, whose zone is k |
| Cells.ZoneSlotAt | src/SudokuGrid.py:45-47 | every cell sits in its own zone's view, at its slot |
| Cells.ZoneViewIff | src/SudokuGrid.py:45-47 | zone view k holds exactly the cells whose zone is k |
| Cells.ZoneFirstFree | src/SudokuGrid.py:47 | when cell i is placed, the first free slot of its zone (`index(None)`) is its zone slot |
| Cells.IndexOf | src/SudokuGrid.py:47 | the index found is the first occurrence of the value |
| Cells.PlaceInRowsCols | src/SudokuGrid.py:35-44 | placing cell i in its row and column extends every row and column view by cell i |
| Cells.PlaceInZones | src/SudokuGrid.py:45-47 | placing cell i in its zone's first free slot extends every zone view by cell i |
| Cells.ViewsIncreasing | src/SudokuGrid.py:35-47 | each view lists its cells in row-major order |
| Cells.GroupIff | src/SudokuGrid.py:30-47 | group g of a view holds exactly the cells of that row, column or zone |
| Cells.GroupOfCell | src/SudokuGrid.py:30-47 | every cell is in some group of every view |
| Boards.UsedIff | src/SudokuGrid.py:99-109 | the used values of cell i are exactly the values of filled cells sharing a unit with i |
| Boards.PossibleValues | src/SudokuGrid.py:91-113 | the possible values are a subset of the cell's notes |
| Boards.PossibleValuesIff | src/SudokuGrid.py:91-113 | a value is possible iff it is a note of the cell that no cell sharing a unit holds |
| Boards.InitialNotes | src/SudokuGrid.py:79-89 | after construction an empty cell's notes are 1..9 minus the values seen from it; a given keeps the default {1..9}; 0 is stored as empty |
| Boards.SetValueEffect | src/Cell.py:100-116 | set_value succeeds iff the cell is empty; then the cell holds the value with no notes; otherwise nothing changes |
| Boards.AssignEffect | src/Cell.py:40-52 | after placing v at i, every empty related cell loses v and its notes only shrink; other cells keep values and notes |
| Boards.AssignShrinks | src/Cell.py:100-116 | placing a value in an empty cell only fills cells and removes notes, and changes the grid |
| Boards.AssignDeduced | src/Cell.py:100-116 | placing one of an empty cell's notes there is a deduction that changes the grid |
| Boards.IsComplete | src/SudokuGrid.py:132-138 | complete iff no cell is empty |
| Boards.IsCorrect | src/SudokuGrid.py:140-172 | correct iff no two different cells sharing a unit hold the same value |
| Boards.CorrectIff | src/SudokuGrid.py:140-172 | every row, column and zone passing is_unique is the same as no two cells sharing a unit clashing |
| Boards.UniqueNoClash | src/SudokuGrid.py:140-172 | in a grid whose units are all unique, two cells sharing a unit differ |
| Boards.NoClashUnique | src/SudokuGrid.py:140-172 | in a clash-free grid every unit's values pass is_unique |
| Boards.UnitValues | src/SudokuGrid.py:156-158 | the list checked for a unit holds that unit's cell values, in view order |
| Boards.CellAt | src/SudokuGrid.py:115-130 | get_cell succeeds iff row and column are in 0..8; the cell is then `rows[row][col]`, which is `cols[col][row]` |
| Boards.MeasureShrinks | src/SudokuSolver.py:103-150 | a board that only shrinks has a measure no larger, and strictly smaller when it changed |
| Boards.ProgressTrans | src/RulesHandlerChain.py:39-47 | two steps that each shrink and report a change iff the board changed compose into one such step |
| Boards.DeducedTrans | src/RulesHandlerChain.py:39-47 | two deduction steps compose into one |
| Boards.ShrinksValid | src/Cell.py:40-52 | shrinking notes keeps them within 1..9 |
| Grids.Grid.constructor | src/SudokuGrid.py:14-53 | the new grid's cells hold the input (0 as empty) with the initial notes, and its views are the row, column and zone lists |
| Grids.NewGrid | src/SudokuGrid.py:26-27 | constructing a grid fails, with the shape error, iff the input does not hold 81 numbers |
| Grids.Grid.ComputeCellNotes | src/SudokuGrid.py:79-89 | each empty cell's notes become its possible values |
| Grids.Grid.SetValue | src/Cell.py:100-116 | the grid after set_value and the returned flag are those of set_value on the board |
| Grids.Grid.UpdateCells | src/Cell.py:40-52 | every empty related cell of i gets its possible values as notes; values and all other notes stay |
| Grids.Grid.GetCell | src/SudokuGrid.py:115-130 | returns the cell get_cell names, or IndexOutOfRange |
| Grids.Grid.GetIntList | src/SudokuGrid.py:63-69 | returns the values of all 81 cells in row-major order |
| Grids.Grid.IsComplete | src/SudokuGrid.py:132-138 | returns whether the grid is complete |
| Grids.Grid.IsCorrect | src/SudokuGrid.py:140-172 | returns whether the grid is free of clashes |
| Grids.Grid.View | src/DeductionRules/DR1.py:16 | the k-th of (rows, cols, zones) lists the groups of that view |
| Utils.IsUnique | src/utils.py:155-169 | true iff no value other than the empty marker repeats |
| Utils.Least | src/DeductionRules/DR2.py:86 | the note hidden singles visit next is the least one not yet visited |
| Utils.TrimStart | src/utils.py:24 | the left strip drops exactly the leading whitespace |
| Utils.TrimEnd | src/utils.py:24 | the right strip drops exactly the trailing whitespace |
| Utils.StripIs | src/utils.py:24 | stripping whitespace around a core with non-space ends gives that core |
| Utils.StripCount | src/utils.py:28 | stripping never changes the number of commas |
| Utils.Split | src/utils.py:37 | splitting gives one more part than separators, and no part holds the separator |
| Utils.SplitJoin | src/utils.py:37 | joining the parts of a split gives back the string |
| Utils.JoinSplit | src/utils.py:71-73 | splitting a join of separator-free parts gives back the parts |
| Utils.ParseFields | src/utils.py:36-38 | parsing fields yields one number per field, or BadField |
| Utils.ParseLineShape | src/utils.py:24-44 | a line is rejected iff it is not blank or a comment and it lacks 8 commas, is not 17 characters once stripped, or has a field int() rejects; an accepted data line gives 9 numbers |
| Utils.GatherCount | src/utils.py:18-46 | reading succeeds iff every line is accepted, and then gives 9 numbers per data line |
| Utils.GatherErrStays | src/utils.py:18-46 | the first bad line decides the error, whatever follows |
| Utils.ParseLinesIff | src/utils.py:18-57 | read_input succeeds iff every line is accepted and there are exactly 9 data lines, and then gives 81 numbers |
| Utils.ReadInput | src/utils.py:5-57 | the loop over the lines computes read_input's result, including its errors |
| Utils.ParseIntDigit | src/utils.py:37 | int() of a single digit is that digit |
| Utils.Find | src/utils.py:62-65 | finds the first occurrence of the pattern at or after k, or reports there is none |
| Utils.UrlSpecErr | src/utils.py:62-63 | url_convert fails iff the URL has no "bd=", and then with MissingBdParameter |
| Utils.UrlConvert | src/utils.py:60-75 | the method computes url_convert's result |
| Utils.UrlRows | src/utils.py:67-69 | the board string is cut into 9 rows |
| Utils.Commas | src/utils.py:73 | joining a row's characters with commas doubles its length less one |
| Utils.CommasSplit | src/utils.py:73 | splitting a comma-joined digit row at commas gives its digits one by one |
| Utils.DigitLine | src/utils.py:71-73 | a comma-joined row of 9 digits is a data line that reads back as those 9 digits |
| Utils.RowsTextIs | src/utils.py:71-73 | the text built row by row is the rows joined by newlines, plus a final newline |
| Utils.UrlRoundTrip | src/utils.py:60-75 | for a URL whose bd= value is 81 digits, url_convert gives 9 lines that read_input reads back as the board's 81 cells, in order |
| Utils.ReadRows | src/utils.py:18-57 | the 9 rows of a digit board read back as the board's 81 cells |
| Rules.DefaultTier | src/DeductionRules/DR1.py:32 | every strategy's default tier is 1..3: tier 1 exactly for the singles, tier 3 exactly for hidden triples and Y-Wing |
| Rules.TierOr | src/DeductionRules/DR1.py:32 | `d or default`: a nonzero tier is kept, zero falls back to a tier in 1..3 |
| Rules.DeductionRule.constructor | src/DeductionRules/DR1.py:10-13 | a new rule has its kind, the tier `d or default` and has_changed false |
| Rules.DeductionRule.GetName | src/DeductionRules/DeductionRule.py:29-30 | returns the strategy's display name |
| Rules.DeductionRule.GetDifficulty | src/DeductionRules/DeductionRule.py:32-33 | returns the rule's tier |
| Rules.DeductionRule.ApplyRule | src/DeductionRules/DeductionRule.py:35-41 | resets has_changed, runs the strategy on the grid and returns its flag; the new grid is that strategy's step; when the strategy raises, the flag is left set, as it is set just before the raise |
| Rules.RuleStepSound | src/DeductionRules/DeductionRule.py:35-41 | every strategy only deduces, keeps the notes in 1..9, and returns true exactly when the grid changed |
| NakedRules.EmptyCellsIff | src/DeductionRules/DR1.py:104 | the cells kept are exactly the group's empty cells |
| NakedRules.CandidatesIff | src/DeductionRules/DR1.py:82 | the candidates are exactly the cells with the required number of notes |
| NakedRules.EmptyCellsOf | src/DeductionRules/DR1.py:104 | the loop computes the group's empty cells in order |
| NakedRules.CandidatesOf | src/DeductionRules/DR1.py:82 | the loop computes the candidate cells in order |
| NakedRules.PairsWithAt | src/DeductionRules/DR1.py:84-86 | the inner loop yields exactly the pairs (c, d) with d a different candidate with the same notes |
| NakedRules.PairsFromAt | src/DeductionRules/DR1.py:83-86 | the outer loop yields exactly the ordered pairs of different candidates with equal notes |
| NakedRules.NakedPairsIff | src/DeductionRules/DR1.py:68-87 | find_naked_pairs yields exactly the ordered pairs of different cells with the same two notes |
| NakedRules.FindNakedPairs | src/DeductionRules/DR1.py:81-87 | the nested loops compute find_naked_pairs' list, in its order |
| NakedRules.AppendPairsFor | src/DeductionRules/DR1.py:84-86 | the inner loop appends the pairs starting with the given cell |
| NakedRules.SmallCountsSorted | src/DeductionRules/DR1.py:184-192 | the note counts hold the test iff, sorted, they are [2, 2, 3] or [2, 2, 2] |
| NakedRules.TriplesWithAt | src/DeductionRules/DR1.py:172-200 | the innermost loop yields exactly the triples with the given first two cells that pass the test |
| NakedRules.TriplesMidAt | src/DeductionRules/DR1.py:170-200 | the middle loop yields exactly the triples with the given first cell that pass the test |
| NakedRules.TriplesFromAt | src/DeductionRules/DR1.py:169-200 | the outer loop yields exactly the candidate triples that pass the test |
| NakedRules.NakedTriplesIff | src/DeductionRules/DR1.py:149-202 | find_naked_triples yields exactly the ordered triples of distinct candidates whose notes join to three values, except those the count-and-equality test skips |
| NakedRules.FindNakedTriples | src/DeductionRules/DR1.py:161-202 | the nested loops compute find_naked_triples' list |
| NakedRules.AppendTriplesFor | src/DeductionRules/DR1.py:170-200 | the middle loop appends the triples starting with the given cell |
| NakedRules.AppendTriples | src/DeductionRules/DR1.py:172-200 | the innermost loop appends the triples starting with the given two cells |
| NakedRules.RelatedIff | src/DeductionRules/DR1.py:110-122 | the cells cleared are exactly the other empty cells of the group, or of the row, column or zone all pattern cells share |
| NakedRules.Strike | src/DeductionRules/DR1.py:125-135 | removing notes from one cell: values stay, the cell loses the notes; it fails with NoteSetEmptied iff a removal empties its notes; otherwise the flag is set iff it was set or a note went |
| NakedRules.StrikeNotes | src/DeductionRules/DR1.py:126-135 | the loop over the notes performs that removal on the grid, raising at the first emptied set |
| NakedRules.StrikeTargets | src/DeductionRules/DR1.py:125-135 | the loop over the related cells performs the removals in ascending order, stopping at the first error |
| NakedRules.StrikePattern | src/DeductionRules/DR1.py:108-135 | one pattern clears its first cell's notes from every related cell |
| NakedRules.NakedGroup | src/DeductionRules/DR1.py:102-135 | one group: the patterns are found among its empty cells, then applied in turn |
| NakedRules.PatternView | src/DeductionRules/DR1.py:102-135 | one view: every group in turn, stopping at an error |
| NakedRules.SingleCell | src/DeductionRules/DR1.py:50-52 | an empty cell with one note takes it, with the flag set; any other cell is untouched |
| NakedRules.SinglesGroup | src/DeductionRules/DR1.py:48-52 | the loop scans one group's cells in order |
| NakedRules.SinglesUnit | src/DeductionRules/DR1.py:47-52 | the loop scans every group of a view |
| NakedRules.NakedView | src/DeductionRules/DR1.py:16-18 | one view of the strategy; singles stop after the first view |
| NakedRules.ApplyNaked | src/DeductionRules/DR1.py:15-18 | the strategy runs over rows, cols and zones in turn, stopping after rows for singles or at an error |
| NakedRules.StrikeFromEffect | src/DeductionRules/DR1.py:125-135 | clearing notes keeps values and only shrinks notes; without error the flag is set iff it was set or a note was removed |
| NakedRules.StrikeFromProgress | src/DeductionRules/DR1.py:125-135 | clearing notes keeps values, shrinks notes, and on success reports a change iff the board changed |
| NakedRules.ApplyPatternsProgress | src/DeductionRules/DR1.py:108-135 | applying a group's patterns in turn keeps that property |
| NakedRules.PatternGroupProgress | src/DeductionRules/DR1.py:102-135 | one group of pairs or triples keeps that property |
| NakedRules.ScanKept | src/DeductionRules/DR1.py:102-106 | scanning a view's groups in turn keeps that property whenever each group step keeps it |
| NakedRules.PatternGroupsProgress | src/DeductionRules/DR1.py:102-135 | a view of pairs or triples keeps that property |
| NakedRules.SinglesProgress | src/DeductionRules/DR1.py:47-52 | naked singles over a view only deduce and report a change iff the board changed |
| NakedRules.SinglesInFire | src/DeductionRules/DR1.py:47-52 | the scan of a group sets the flag iff it was set or some scanned cell is empty with one note |
| NakedRules.SinglesFire | src/DeductionRules/DR1.py:47-52 | the scan of a view sets the flag iff it was set or some group has an empty cell with one note |
| NakedRules.NakedUnitSound | src/DeductionRules/DR1.py:15-18 | one view of any naked strategy only deduces; pairs and triples fill no cell |
| NakedRules.NakedFromSound | src/DeductionRules/DR1.py:15-18 | the views in turn keep that property |
| NakedRules.NakedRuleProgress | src/DeductionRules/DR1.py:15-18 | a naked strategy only deduces, pairs and triples fill no cell, and on success it reports a change iff the board changed |
| NakedRules.NakedSinglesFire | src/DeductionRules/DR1.py:34-55 | naked singles never fail, and report a change iff some empty cell has exactly one note |
| NakedRules.NakedSinglesRows | src/DeductionRules/DR1.py:15-18 | naked singles scan the rows only |
| NakedRules.LoneSomewhere | src/DeductionRules/DR1.py:47-52 | some row holds an empty cell with one note iff some cell does |
| HiddenRules.OccurrencesIff | src/DeductionRules/DR2.py:15-44 | a value is a key iff it is a note of an empty cell of the group, and it maps to exactly those cells |
| HiddenRules.GetNotesOccurences | src/DeductionRules/DR2.py:28-44 | the loop over the group builds that map |
| HiddenRules.AddNotes | src/DeductionRules/DR2.py:33-43 | the loop over one cell's notes adds the cell under each of them |
| HiddenRules.NarrowedEffect | src/DeductionRules/DR2.py:138-142 | narrowing keeps values and only shrinks notes; each cell in an action keeps only the action's values; other cells are untouched |
| HiddenRules.NarrowedChanged | src/DeductionRules/DR2.py:138-142 | narrowing changes the board iff some cell in an action has a note outside the action's values |
| HiddenRules.NarrowCells | src/DeductionRules/DR2.py:138-142 | the loop intersects each cell's notes with the kept values and sets the flag iff it was set or some cell had another note |
| HiddenRules.HiddenPairs | src/DeductionRules/DR2.py:115-142 | the loops apply every hidden-pair narrowing of the map, and the flag reports any change |
| HiddenRules.PairsWithFirst | src/DeductionRules/DR2.py:119-142 | the inner loop applies the narrowings with the given first note |
| HiddenRules.PairStep | src/DeductionRules/DR2.py:120-142 | one pair of notes narrows their two cells when both notes sit in the same two cells |
| HiddenRules.HiddenTriples | src/DeductionRules/DR2.py:162-196 | the loops apply every hidden-triple narrowing of the map, and the flag reports any change |
| HiddenRules.TriplesWithFirst | src/DeductionRules/DR2.py:164-196 | the middle loops apply the narrowings with the given first note |
| HiddenRules.TriplesWithSecond | src/DeductionRules/DR2.py:172-196 | the innermost loop applies the narrowings with the given first two notes |
| HiddenRules.TripleStep | src/DeductionRules/DR2.py:173-196 | one triple of notes narrows their cells when its guards hold and the notes sit in exactly three cells |
| HiddenRules.HiddenSingles | src/DeductionRules/DR2.py:86-91 | each note held by a single cell of the group is placed there if that cell is still empty |
| HiddenRules.HiddenGroupStep | src/DeductionRules/DR2.py:57-62 | one group: the map is built, then the strategy runs on it |
| HiddenRules.HiddenView | src/DeductionRules/DR2.py:57-62 | every group of one view in turn |
| HiddenRules.ApplyHidden | src/DeductionRules/DR2.py:46-62 | rows, cols and zones in turn |
| HiddenRules.HiddenSingleSound | src/DeductionRules/DR2.py:86-91 | each placement puts in a cell the one value that, at the start, only that cell of the group could hold |
| HiddenRules.SinglesFromSound | src/DeductionRules/DR2.py:86-91 | the whole loop keeps that property, and reports a change iff the board changed |
| HiddenRules.SinglesFromFires | src/DeductionRules/DR2.py:86-91 | the loop places something iff some note of the map has exactly one holder |
| HiddenRules.HiddenSinglesFire | src/DeductionRules/DR2.py:86-91 | hidden singles on a group report a change iff it was reported or some value is a note of exactly one empty cell of the group |
| HiddenRules.HiddenSinglesPlaced | src/DeductionRules/DR2.py:86-91 | every value hidden singles place was a note of that cell alone in the group |
| HiddenRules.ActionsInGroup | src/DeductionRules/DR2.py:138-141 | hidden pairs and triples only narrow cells of the group |
| HiddenRules.HiddenNarrowLocal | src/DeductionRules/DR2.py:115-196 | hidden pairs and triples keep values, only shrink notes, and leave every cell outside the group untouched |
| HiddenRules.HiddenPairEffect | src/DeductionRules/DR2.py:115-142 | when two notes are held by the same two cells, both cells end with notes within that pair |
| HiddenRules.HiddenTripleEffect | src/DeductionRules/DR2.py:162-196 | when a triple fires, all its cells end with notes within the triple |
| HiddenRules.HiddenPairsChanged | src/DeductionRules/DR2.py:138-142 | hidden pairs report a change iff it was reported or a firing pair has a cell with another note |
| HiddenRules.HiddenTriplesChanged | src/DeductionRules/DR2.py:189-196 | hidden triples report a change iff it was reported or a firing triple has a cell with another note |
| HiddenRules.HiddenGroupSound | src/DeductionRules/DR2.py:57-62 | one group of a hidden strategy only deduces and reports a change iff the board changed |
| HiddenRules.HiddenGroupsSound | src/DeductionRules/DR2.py:57-62 | every group of a view in turn keeps that property |
| HiddenRules.HiddenFromSound | src/DeductionRules/DR2.py:56-62 | the three views in turn keep that property |
| HiddenRules.HiddenRuleSound | src/DeductionRules/DR2.py:46-62 | a hidden strategy only deduces, pairs and triples fill no cell, and it reports a change iff the board changed |
| YWing.Pincers | src/DeductionRules/DR3.py:73-82 | the pincers are exactly the other empty cells sharing a unit with the pivot that have two notes, one of them shared with the pivot |
| YWing.SeenByPincers | src/DeductionRules/DR3.py:14-49 | the targets are exactly the empty cells, other than the three, that share a unit with both pincers |
| YWing.FirstPivot | src/DeductionRules/DR3.py:65-68 | the pivot acted on is the first cell, in grid order, that has a Y-Wing with a target |
| YWing.PivotWing | src/DeductionRules/DR3.py:66-106 | the search on one pivot finds a Y-Wing with a target holding the common note, or none exists |
| YWing.WithFirst | src/DeductionRules/DR3.py:85-106 | the search with a given first pincer finds a hit, or none exists with the later pincers |
| YWing.TryPincer | src/DeductionRules/DR3.py:86-106 | one pincer pair gives a hit, or none exists for that pair |
| YWing.FindTarget | src/DeductionRules/DR3.py:95-106 | finds a cell seen by both pincers that holds the common note, or none does |
| YWing.HitSymmetric | src/DeductionRules/DR3.py:85-86 | swapping the pincers keeps a hit, so trying each unordered pair once misses none |
| YWing.WingShape | src/DeductionRules/DR3.py:88-92 | a pincer pair that passes the test has notes {x, y}, {x, z}, {y, z} with z the common note |
| YWing.WingSound | src/DeductionRules/DR3.py:51-57 | in any clash-free filling that gives pivot and pincers one of their notes, the target does not hold the common note |
| YWing.ApplyYWing | src/DeductionRules/DR3.py:51-106 | if some pivot has a hit, the first such pivot removes the common note from one target and reports a change; otherwise nothing changes |
| YWing.YWingChanged | src/DeductionRules/DR3.py:51-106 | Y-Wing keeps values, only shrinks notes, and reports a change iff the board changed iff some pivot has a hit |
| YWing.YWingRemoves | src/DeductionRules/DR3.py:92-106 | a reported change removes exactly the common note from exactly one target cell |
| YWing.StrikeEffect | src/DeductionRules/DR3.py:104 | removing a note the target holds changes exactly that note of that cell |
| Factory.LookupInIff | src/DeductionRuleFactory.py:45 | `RULES.get` finds an entry iff some entry has the name, and then that entry |
| Factory.CreateSpecIff | src/DeductionRuleFactory.py:35-54 | create_rule succeeds iff the name is in RULES, with a tier in 1..3; otherwise it fails with UnknownRule |
| Factory.TableEntries | src/DeductionRuleFactory.py:24-32 | every RULES entry has a class and a tier in 1..3 |
| Factory.CreateRule | src/DeductionRuleFactory.py:35-54 | the rule built has the entry's kind and tier, or the error create_rule raises |
| Factory.AllRulesInOrder | src/DeductionRuleFactory.py:24-32 | the full rule list is the seven strategies in table order with tiers 1, 2, 2, 1, 2, 3, 3 |
| Factory.TiersInRange | src/DeductionRuleFactory.py:24-32 | every tier in the table is 1..3 |
| Factory.CreateAllRules | src/DeductionRuleFactory.py:57-72 | one fresh rule per table entry, in order, with that entry's kind and tier |
| Chain.MaxTierIsMax | src/RulesHandlerChain.py:32-37 | the difficulty after n handlers is the largest of the start level and the tiers reached |
| Chain.TiersBounded | src/RulesHandlerChain.py:32-37 | with tiers in 1..3, a start level in 0..4 stays within 0..4 |
| Chain.Execute | src/RulesHandlerChain.py:21-50 | rules run in order until one reports a change or raises; the result is that rule's, or no change after all ran; the difficulty is raised to every tier reached |
| Chain.ChainSound | src/RulesHandlerChain.py:39-50 | a pass of the chain only deduces, keeps notes in 1..9, reports a change iff the board changed, and reports none only after every rule ran |
| Chain.EmptyChain | src/RulesHandlerChain.py:93-95 | an empty chain reports no change and keeps the difficulty |
| Solver.Target | src/SudokuSolver.py:189 | answers in 1..9 name a cell |
| Solver.TargetCell | src/SudokuSolver.py:189 | the cell named is at row-1, col-1 |
| Solver.FirstOpen | src/SudokuSolver.py:185-191 | the answer taken lies among the unread answers |
| Solver.FirstOpenIff | src/SudokuSolver.py:185-191 | the answer taken is the first unread one that names an empty cell; there is none iff every unread answer names a filled cell |
| Solver.PromptErrIff | src/SudokuSolver.py:185-191 | prompting fails iff every unread answer names a filled cell, and then only because the answers ran out |
| Solver.PromptPlaces | src/SudokuSolver.py:185-191 | a successful prompt skips the answers naming filled cells and places the first one naming an empty cell |
| Solver.PromptShrinks | src/SudokuSolver.py:189-191 | a successful prompt changes the grid, only fills cells and removes notes, and keeps notes in 1..9 |
| Solver.PromptAsWritten | src/SudokuSolver.py:185-189 | the prompt as written never places a value: with an answer left it raises AttributeError (the grid object has no set_value), and with none left it waits for input |
| Solver.PromptAsWrittenIff | src/SudokuSolver.py:185-191 | the written and the intended prompt agree exactly when no answer is left |
| Solver.PromptFinding | src/SudokuSolver.py:189-191 | on a grid with an empty first cell and the answer (1, 1, 5), the written prompt fails while the corrected one places 5 there |
| Solver.PromptOn | src/SudokuSolver.py:152-191 | the retrying prompt computes the corrected prompt's result; on failure the grid is untouched |
| Solver.SetAnswer | src/SudokuSolver.py:189 | placing an answer is set_value on the named cell |
| Solver.SudokuSolver.constructor | src/SudokuSolver.py:57-72 | a new solver has the grid, the rules, the prompt setting and difficulty 0 |
| Solver.SudokuSolver.ApplyRules | src/SudokuSolver.py:79-92 | one pass of the chain: it only deduces, reports a change iff the grid changed, and takes the chain's difficulty when the pass returns; when a rule raises, the difficulty stays as it was |
| Solver.SudokuSolver.PromptUserForInput | src/SudokuSolver.py:152-191 | the corrected prompt: the grid gets the first unread answer that names an empty cell, or stays unchanged when none does |
| Solver.SudokuSolver.Unstick | src/SudokuSolver.py:112-117 | when stuck with prompting, the difficulty goes up one level unless already 4, then the corrected prompt runs from the next unread answer: its result is exactly the prompt's, placing the first answer that names an empty cell, or, when no such answer is left, giving up with the grid unchanged (as written, the prompt raises AttributeError here; see Findings) |
| Solver.Checked | src/SudokuSolver.py:130-150 | the checks that close a turn: false exactly on an incorrect grid, true exactly on a correct complete one, otherwise the loop goes on |
| Solver.SudokuSolver.Round | src/SudokuSolver.py:107-150 | one turn of the loop, exactly: the chain pass's error is returned; a pass that changed the grid goes to the checks (incorrect gives false, complete gives true, otherwise go on); stuck without prompting returns whether the grid is complete; stuck with prompting runs the corrected prompt (see Findings) and returns its error, or places one answer and goes to the same checks; the difficulty becomes the chain's when the pass returns (unchanged when it raises), plus one level up to 4 on a stuck turn with prompting |
| Solver.SudokuSolver.Solve | src/SudokuSolver.py:94-150 | solve terminates; true means complete, and still correct if it started so; false means incorrect, or stuck without prompting; on a correct grid the result is true exactly when the grid is complete; an error is a rule's error in a chain pass or, with prompting, no answer left; without prompting every change is a deduction; with prompting, stuck turns use the corrected prompt (see Findings) |
| Solver.CreateRules | src/SudokuSolver.py:61-62 | one rule per name, in order, each with the table's kind and tier, or the first unknown name's error |
| Solver.LoadGrid | src/SudokuSolver.py:47-55 | the grid is read and built from the lines; it fails with read_input's error, or with IncorrectGrid when the loaded grid clashes |
| Solver.ChooseRules | src/SudokuSolver.py:60-65 | the named rules when names are given, else all seven in table order |
| Solver.NewSolver | src/SudokuSolver.py:19-77 | construction fails with read_input's error, then IncorrectGrid, then a factory error; otherwise the solver holds the initial grid, difficulty 0 and the chosen rules |

## Left out

- File and console I/O is not modelled. The input file is given as its lines and the
  user's answers as a sequence. `print`, `verbose` output, `print_grid`, `show_notes`,
  `create_bckp` and the completion message are left out, as are the default input path
  and the file-existence check.
- `main.py`, `run_tests.py`, `write_grid_to_file`, `convert_url_to_grid` and
  `delete_file` are not part of this model. They are drivers and file helpers around
  the core.
- `validate_input` and `input()` are not modelled. Every answer is assumed to be in
  1..9, which the decorator ensures before returning. Running out of answers gives
  `InputExhausted`, where the program would wait for more input.
- The DR4 and DR5 strategies are not part of this model. They are not in the rule table.
- The base `_apply_rule` and `_apply_naked_rule`, which raise NotImplementedError, are
  not modelled. Only the seven concrete strategies exist as rule kinds.
- The `RuleHandler` linked list and `add_handler` are modelled as the sequence of rules
  the chain walks in order.
- The `isinstance` checks that raise TypeError are left out. Types are checked statically.
- `int()` accepts more forms than ASCII digits with optional sign and surrounding
  whitespace (underscores, non-ASCII digits). Those other forms are not modelled.
- Python's set and dict iteration order is modelled as ascending cell index or note
  value. Where the program iterates a set, the outcome can depend on that order.
- HiddenRules.HiddenSingles: uses ascending note order, whereas the program's dict
  follows first-occurrence order. The two differ only when one cell is the single
  holder of two values, which cannot happen in a solvable grid.
- YWing.ApplyYWing: states which pivot acts, the first in grid order. It leaves open
  which pincer pair and target of that pivot are used, because the program takes them
  in the iteration order of Python sets.
- Solver.SudokuSolver.Solve: states the difficulty only as within 0..4. The exact level
  is stated per turn by Round.
- Solver.SudokuSolver.Unstick: places an answer through the corrected prompt of the
  Findings row. As written, the first stuck turn with prompting on raises AttributeError
  and no answer is ever placed.
- Solver.SudokuSolver.Round: a stuck turn with prompting on goes through Unstick, so it
  also follows the corrected prompt, not the AttributeError of the program as written.
- Solver.SudokuSolver.Solve: with prompting on, its turns follow the corrected prompt,
  as Round does.
- Solver.SudokuSolver.Solve: states where an error comes from (a rule raising in a
  chain pass that ends on the final grid, or, with prompting, no answer left), not the
  turn it happened in; the exact outcome of each turn is stated by Round.
- All givens share one default notes set object in the program. The model gives each
  given its own copy of {1..9}, which is the same thing here because no rule changes a
  given's notes.
- The program raises `ValueError` for an emptied note set and for an incorrect grid.
  These are modelled as the `NoteSetEmptied` and `IncorrectGrid` error values, which
  the callers pass on.

## Findings

| source | as written | input that shows it | evidently intended | confidence | as-written member | corrected member |
|---|---|---|---|---|---|---|
| src/SudokuSolver.py:189 | `prompt_user_for_input` calls `self.sudoku_grid.set_value(...)`, but `SudokuGrid` has no `set_value` method, so every prompt raises AttributeError | a grid the rules cannot advance, prompting on, answer row 1, column 1, value 5, with the first cell empty | set the value on the cell: `get_cell(row - 1, col - 1).set_value(val)`, retrying while the cell is filled | not executed | Solver.PromptAsWritten | Solver.SudokuSolver.PromptUserForInput |
