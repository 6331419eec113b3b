/** Parse from the text of a query, and what it guarantees for any text. */
module Query {
  import opened Text
  import opened Syntax
  import opened Library
  import opened Expansion
  import opened Normalize
  import opened Defaults
  import Lexing
  import Parser
  import Pipeline

  /** mateql.Parse: lexer and parser, expansion under the definitions that
      every query sees, removal of parens, folding. On any text it ends with
      an error or with a tree in normal form. */
  method Parse(lib: Lib, fl: Floats, text: string) returns (r: Outcome<Expr>)
    ensures ScopeWellFormed(DefaultScope(lib)) && r == Pipeline.Parse(lib, fl, AsWritten, DefaultScope(lib), Lexing.Lex(text))
    ensures !r.Bug?
    ensures r.Ok? ==> Has(Resolved, r.value) && Has(ParenFree, r.value) && Has(Folded, r.value)
  {
    hide DefaultScope, Lexing.Lex, Expand, RemoveParens, Simplify, Has;
    DefaultScopeIsUsable(lib, {});
    Pipeline.ParseIsNormal(lib, fl, AsWritten, DefaultScope(lib), Lexing.Lex(text));
    var q := Parser.ParseText(lib, text);
    if q.None? {
      return Err;
    }
    Pipeline.QueryIsWellFormed(lib, Lexing.Lex(text));
    var x := Expand(lib, AsWritten, DefaultScope(lib), q.value);
    if !x.Ok? {
      return Err;
    }
    var e := RemoveParensExpr(x.value);
    e := SimplifyConstants(fl, e);
    return Ok(e);
  }
}
