/** The error types the lexer in src/renrs_lang reports (src/renrs_lang/err.rs). */
module LangErr {

  /** Kinds of errors the lexer raises. */
  datatype CompilationErrKind =
    | InvalidNumber  // a numeric run that is not a valid number
    | Unreachable    // an internal state the lexer never reaches

  /** An error: its kind and a human-readable message. */
  datatype CompilationErr = CompilationErr(kind: CompilationErrKind, message: string)
}
