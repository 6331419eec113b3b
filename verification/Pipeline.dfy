/** Parse as a whole: grammar, expansion, removal of parens, folding. */
module Pipeline {
  import opened Text
  import opened Syntax
  import opened Library
  import opened Grammar
  import opened Expansion
  import opened Normalize
  import opened Hygiene
  import opened ParseShape
  import opened Printer
  import opened RoundTrip
  import opened Reading

  /** Parse, from the tokens of a query and the definitions known to all. */
  function Parse(lib: Lib, fl: Floats, mode: Mode, was: seq<Entry>, s: Stream): Outcome<Expr>
    requires ScopeWellFormed(was)
  {
    match ParseQuery(lib, s)
    case None => Err
    case Some(e) =>
      QueryIsSound(lib, s);
      var x :- Expand(lib, mode, was, e);
      Ok(Simplify(fl, RemoveParens(x)))
  }

  lemma QueryIsWellFormed(lib: Lib, s: Stream)
    ensures ParseQuery(lib, s).Some? ==> Has(WellFormed, ParseQuery(lib, s).value)
  {
    QueryIsSound(lib, s);
  }

  lemma {:induction false} ExpandedIsResolved(e: Expr)
    requires Has(Expanded, e)
    ensures Has(Resolved, e)
    decreases e
  {
    match e
    case Func(_, args) => forall i | 0 <= i < |args| ensures Has(Resolved, args[i]) { ExpandedIsResolved(args[i]); }
    case Aggr(_, args, _, _) => forall i | 0 <= i < |args| ensures Has(Resolved, args[i]) { ExpandedIsResolved(args[i]); }
    case Parens(args) => forall i | 0 <= i < |args| ensures Has(Resolved, args[i]) { ExpandedIsResolved(args[i]); }
    case Binary(_, left, right) => ExpandedIsResolved(left); ExpandedIsResolved(right);
    case Rollup(inner, _, _, _, _) => ExpandedIsResolved(inner);
    case _ =>
  }

  /** No query makes the program panic, and every result is free of WITH and
      parens nodes, of unexpanded strings and filters, and of operators over
      two numbers. */
  lemma ParseIsNormal(lib: Lib, fl: Floats, mode: Mode, was: seq<Entry>, s: Stream)
    requires ScopeWellFormed(was)
    ensures var r := Parse(lib, fl, mode, was, s);
            !r.Bug? && (r.Ok? ==> Has(Resolved, r.value) && Has(ParenFree, r.value) && Has(Folded, r.value))
  {
    var q := ParseQuery(lib, s);
    if q.Some? {
      QueryIsSound(lib, s);
      var x := Expand(lib, mode, was, q.value);
      if x.Ok? {
        ExpandedIsResolved(x.value);
        RemoveParensResolves(x.value);
        RemoveParensIsParenFree(x.value);
        SimplifyFolds(fl, RemoveParens(x.value));
      }
    }
  }

  /** Parsing what printing wrote returns the tree that was printed. */
  lemma ParseInvertsPrint(lib: Lib, fl: Floats, was: seq<Entry>, e: Expr)
    requires LibraryOk(lib) && ScopeWellFormed(was) && Readable(lib, e) && Stable(lib, fl, was, e)
    ensures Parse(lib, fl, AsWritten, was, Good(Print(lib, e))) == Ok(e)
  {
    hide Expand, Readable, Stable, Print, Raw;
    ParseOfPrint(lib, e);
    RawExpands(lib, fl, was, e);
  }

  /** Two trees that can be read back and print the same are equal. */
  lemma PrintIsInjective(lib: Lib, fl: Floats, was: seq<Entry>, a: Expr, b: Expr)
    requires LibraryOk(lib) && ScopeWellFormed(was) && Print(lib, a) == Print(lib, b)
    requires Readable(lib, a) && Stable(lib, fl, was, a)
    requires Readable(lib, b) && Stable(lib, fl, was, b)
    ensures a == b
  {
    ParseInvertsPrint(lib, fl, was, a);
    ParseInvertsPrint(lib, fl, was, b);
  }

  /** For a query that calls only what it sees or what nothing defines, and
      that has no modifier lists, arguments behave as values. */
  lemma ParseIsByValue(lib: Lib, fl: Floats, defined: set<string>, was: seq<Entry>, s: Stream)
    requires ScopeWellFormed(was) && HygienicScope(defined, was) && Apart(Ids(was), |s.toks|)
    requires ParseQuery(lib, s).Some? ==> Visible(defined, Names(was), ParseQuery(lib, s).value)
    ensures var a, b := Parse(lib, fl, AsWritten, was, s), Parse(lib, fl, ByValue, was, s);
            (a.Ok? <==> b.Ok?) && (a.Ok? ==> a == b)
  {
    var q := ParseQuery(lib, s);
    if q.Some? {
      QueryIsSound(lib, s);
      VisibleIsHygienic(defined, Names(was), Ids(was), |s.toks|, q.value);
      ExpansionIsByValue(lib, defined, was, q.value);
    }
  }
}
