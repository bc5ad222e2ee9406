/** The parts of a Python frame object the debugger reads. */
module Frames {
  /** `f_code.co_name`, `f_code.co_filename`, `f_code.co_firstlineno` and
      `f_lineno`. */
  datatype Frame = Frame(coName: string, coFilename: string, coFirstlineno: int, lineno: int)
}
