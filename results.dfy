/** Error values for the exceptions the solver raises, and the Result and Option
    wrappers that carry them in place of Python's raise. */
module Results {

  datatype Error =
    | GridShape                     // SudokuGrid: input is not a list of 81 integers
    | IndexOutOfRange               // get_cell: a row or column index outside 0..8
    | NoteSetEmptied(cell: int)     // naked pair/triple: a removal left a cell with no notes
    | UnknownRule(name: string)     // factory: name not in the rule table
    | RuleWithoutClass(name: string) // factory: table entry without a class
    | MalformedLine                 // read_input: a data line without 8 commas or 17 characters
    | BadField                      // read_input: a field int() does not accept
    | WrongCellCount                // read_input: the file does not hold 81 numbers
    | MissingBdParameter            // url_convert: the URL has no "bd=" parameter
    | IncorrectGrid                 // solver: the loaded grid has a repeated value in a unit
    | MissingAttribute              // solver prompt: SudokuGrid has no set_value method
    | InputExhausted                // solver prompt: the user gave no further answer

  datatype Result<T> = Ok(value: T) | Err(error: Error)

  datatype Option<T> = None | Some(value: T)
}
