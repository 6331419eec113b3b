/** Functions of the Go standard library that the query language calls and
    that stay abstract here. */
module Library {
  import opened Text
  import opened Syntax

  /** Success, an error returned to the caller, or a panic of the program. */
  datatype Outcome<+T> = Ok(value: T) | Err | Bug {
    predicate IsFailure() { !Ok? }
    function PropagateFailure<U>(): Outcome<U>
      requires IsFailure()
    {
      if Err? then Err else Bug
    }
    function Extract(): T
      requires Ok?
    {
      value
    }
  }

  datatype Lib = Lib(
    parseFloat: string -> Option<Num>,
    formatFloat: Num -> string,
    quote: string -> string,
    unquote: string -> Option<string>,
    regexpCompiles: string -> bool,
    isRollupOrTransform: string -> bool)

  /** strconv.Quote is injective and writes a double-quoted literal. */
  ghost predicate QuotesFaithfully(lib: Lib) {
    && (forall s :: lib.quote(s) != [] && lib.quote(s)[0] == '"')
    && (forall s, t | lib.quote(s) == lib.quote(t) :: s == t)
  }
}
