/** The compiler-side error types (src/compiler/renrs_lang/err.rs): three kinds and one discriminator per kind. */
module CompilerErr {

  datatype CompilationErrKind =
    | InvalidNumber
    | InvalidString
    | Unreachable
  {
    /** True exactly for `InvalidString`. */
    function IsInvalidString(): (r: bool)
      ensures r <==> this == InvalidString
    {
      InvalidString?
    }

    /** True exactly for `InvalidNumber`. */
    function IsInvalidNumber(): (r: bool)
      ensures r <==> this == InvalidNumber
    {
      InvalidNumber?
    }

    /** True exactly for `Unreachable`. */
    function IsUnreachable(): (r: bool)
      ensures r <==> this == Unreachable
    {
      Unreachable?
    }
  }

  /** An error: its kind and a human-readable message. */
  datatype CompilationErr = CompilationErr(kind: CompilationErrKind, message: string)

  /** The kinds are a closed set of three: every kind answers yes to exactly one discriminator. */
  lemma ExactlyOneDiscriminator(k: CompilationErrKind)
    ensures k.IsInvalidString() || k.IsInvalidNumber() || k.IsUnreachable()
    ensures !(k.IsInvalidString() && k.IsInvalidNumber())
    ensures !(k.IsInvalidString() && k.IsUnreachable())
    ensures !(k.IsInvalidNumber() && k.IsUnreachable())
  {
  }
}
