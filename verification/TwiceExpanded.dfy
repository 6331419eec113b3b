/** A query whose result is not that of evaluation by value:
    `with (g(x) = 1 + g(1), h(a) = a) h(g(2))`. */
module TwiceExpanded {
  import opened Text
  import opened Syntax
  import opened Library
  import opened Ident
  import opened Scan
  import opened Grammar
  import opened Printer
  import opened RoundTrip
  import opened Filters
  import opened Expansion
  import opened Normalize
  import opened Reading
  import opened Substitution
  import opened Reexpansion
  import opened Pipeline
  import opened Defaults
  import opened Lexicon
  import opened Limits
  import Hy = Hygiene

  const DEF_G := ["g", "(", "x", ")", "=", "1", "+", "g", "(", "1", ")"]

  const DEF_H := ["h", "(", "a", ")", "=", "a"]

  const CALL := ["h", "(", "g", "(", "2", ")", ")"]

  /** The tokens of the query. */
  const QUERY := ["with", "("] + DEF_G + [","] + DEF_H + [")"] + CALL

  /** How the library treats the names and numbers of the query. */
  ghost predicate ReadsQuery(lib: Lib) {
    && LibraryOk(lib) && !lib.isRollupOrTransform("g") && !lib.isRollupOrTransform("h")
    && lib.formatFloat(Finite(1.0)) == "1" && lib.parseFloat("1") == Some(Finite(1.0))
    && lib.formatFloat(Finite(2.0)) == "2" && lib.parseFloat("2") == Some(Finite(2.0))
  }

  function One(): Expr { Number(Finite(1.0)) }

  /** The body of `g`. */
  function Body(): Expr { Binary(PLUS, One(), Func("g", [One()])) }

  /** What the argument of `h` becomes when it is read. */
  function Grown(): Expr { Parens([Parens([Binary(PLUS, One(), Parens([Body()]))])]) }

  function Argument(): Expr { Func("g", [Number(Finite(2.0))]) }

  function Query(lib: Lib): Expr {
    With([WithArg(26, "g", ["x"], Body()), WithArg(14, "h", ["a"], Reference(lib, "a"))], Func("h", [Argument()]))
  }

  // ----- the query is parsed -----

  lemma ReadParam(param: string, rest: seq<string>)
    requires IsIdentPrefix(param)
    ensures ParseParams(Good(["(", param, ")"] + rest)) == Parsed([param], Good(rest))
  {
    hide MarkOf, ParseIdentList;
    MarksOfPunctuation();
    assert PrintIdents([param]) == [param];
    assert ["(", param, ")"] + rest == ["("] + PrintIdents([param]) + [")"] + rest;
    ReadIdentList([param], "(", [], rest);
    assert [] + [param] == [param];
  }

  /** A definition with one parameter whose body is written by the printer. */
  lemma ReadDefinition(lib: Lib, name: string, param: string, body: Expr, rest: seq<string>)
    requires QuotesFaithfully(lib) && IsIdentPrefix(name) && IsIdentPrefix(param)
    requires KeywordOf(name) !in {AggrName, WithWord} && !lib.isRollupOrTransform(name)
    requires Readable(lib, body) && EndsExpr(Tok(Good(rest)))
    ensures ParseWithArg(lib, Good([name, "(", param, ")", "="] + Print(lib, body) + rest)) ==
            Parsed(WithArg(5 + |Print(lib, body)| + |rest|, name, [param], Raw(lib, body)), Good(rest))
  {
    hide MarkOf, KeywordOf, ParseExpr, ParseParams, Readable, Print, Raw, Advance, EndsExpr;
    var bodies := Print(lib, body) + rest;
    var equals := ["="] + bodies;
    var list := ["(", param, ")"] + equals;
    var all := [name, "(", param, ")", "="] + Print(lib, body) + rest;
    assert all == [name] + list;
    AdvanceOver(name, list);
    ReadParam(param, equals);
    AdvanceOver("=", bodies);
    assert MarkOf("=") == Equal by { FilterOperator("="); }
    ReadExpr(lib, body, rest);
  }

  predicate IsPlainName(t: string) { IsIdentPrefix(t) && KeywordOf(t) == NoKeyword }

  lemma LetterIsPlain(c: char)
    requires 'a' <= c <= 'z'
    ensures IsPlainName([c]) && MarkOf([c]) == Other
  {
    LetterIsNoKeyword(c);
  }

  lemma LetterIsNoKeyword(c: char)
    requires 'a' <= c <= 'z'
    ensures KeywordOf([c]) == NoKeyword
  {
    hide Lower;
    assert |Lower([c])| == 1;
    LetterIsNoAggregate(Lower([c]));
  }

  lemma LetterIsNoAggregate(t: string)
    requires |t| == 1
    ensures t !in AGGR_FUNCS
  {
    assert forall name <- AGGR_FUNCS :: |name| != 1;
  }

  lemma PlainNames()
    ensures IsPlainName("g") && IsPlainName("h") && IsPlainName("a") && IsPlainName("x")
    ensures MarkOf("g") == Other && MarkOf("h") == Other && Escape("a") == "a"
  {
    hide IsPlainName, MarkOf;
    LetterIsPlain('g');
    LetterIsPlain('h');
    LetterIsPlain('a');
    LetterIsPlain('x');
  }

  lemma BodyReads(lib: Lib)
    requires ReadsQuery(lib)
    ensures Readable(lib, Body()) && Raw(lib, Body()) == Body() && Print(lib, Body()) == ["1", "+", "g", "(", "1", ")"]
  {
    hide KeywordOf, OpOf, LibraryOk;
    PlainNames();
    var args := [One()];
    assert args[1..] == [];
    assert RawAll(lib, args) == args && PrintItems(lib, args) == ["1"];
    assert PrintList(lib, args) == ["(", "1", ")"];
    assert PrintOp(PLUS) == ["+"];
    assert Print(lib, Func("g", args)) == ["g", "(", "1", ")"];
  }

  lemma CallReads(lib: Lib)
    requires ReadsQuery(lib)
    ensures var e := Func("h", [Argument()]);
            Readable(lib, e) && Raw(lib, e) == e && Print(lib, e) == ["h", "(", "g", "(", "2", ")", ")"]
  {
    hide KeywordOf, OpOf, LibraryOk;
    PlainNames();
    var args := [Number(Finite(2.0))];
    assert args[1..] == [];
    assert RawAll(lib, args) == args && PrintItems(lib, args) == ["2"];
    assert PrintList(lib, args) == ["(", "2", ")"];
    assert Print(lib, Argument()) == ["g", "(", "2", ")"];
    assert [Argument()][1..] == [];
    assert PrintItems(lib, [Argument()]) == ["g", "(", "2", ")"];
    assert PrintList(lib, [Argument()]) == ["(", "g", "(", "2", ")", ")"];
  }

  lemma NameReads(lib: Lib)
    ensures var e := NewMetric("a"); Readable(lib, e) && Raw(lib, e) == Reference(lib, "a") && Print(lib, e) == ["a"]
  {
    hide KeywordOf, OpOf;
    PlainNames();
    var fs := [LabelFilter("__name__", "a", false, false)];
    assert fs[1..] == [];
  }

  /** What follows each part of the query. */
  function AfterDefs(): seq<string> { [")"] + CALL }

  function FromH(): seq<string> { DEF_H + AfterDefs() }

  function FromG(): seq<string> { DEF_G + ([","] + FromH()) }

  lemma QueryTokens()
    ensures QUERY == ["with"] + (["("] + FromG())
    ensures |FromG()| == 26 && |FromH()| == 14 && FromG()[0] == "g" && FromH()[0] == "h"
  {
    hide DEF_G, DEF_H, CALL;
    var after := AfterDefs();
    assert QUERY == ["with", "("] + DEF_G + [","] + DEF_H + after;
    assert QUERY == ["with", "("] + DEF_G + [","] + FromH();
    assert QUERY == ["with", "("] + FromG();
    Sizes();
  }

  lemma Sizes()
    ensures |DEF_G| == 11 && |DEF_H| == 6 && |CALL| == 7 && DEF_G[0] == "g" && DEF_H[0] == "h"
  {
  }

  lemma DefinitionsParse(lib: Lib)
    requires ReadsQuery(lib)
    ensures ParseWithArgs(lib, Good(["("] + FromG()), []) == Parsed(Query(lib).was, Good(AfterDefs()))
  {
    hide MarkOf, KeywordOf, OpOf, ParseWithArg, ParseExpr, Readable, Print, Raw, Advance, Body, Reference, EndsExpr, AfterDefs;
    PlainNames();
    BodyReads(lib);
    NameReads(lib);
    MarksOfPunctuation();
    QueryTokens();
    assert DEF_G == ["g", "(", "x", ")", "="] + Print(lib, Body());
    assert DEF_H == ["h", "(", "a", ")", "="] + Print(lib, NewMetric("a"));
    var comma := [","] + FromH();
    assert EndsExpr(Tok(Good(comma))) && EndsExpr(Tok(Good(AfterDefs()))) && MarkOf(Tok(Good(AfterDefs()))) == RParen by {
      EndTokens();
      assert Tok(Good(AfterDefs())) == ")" by { CallComesLast(); }
    }
    ReadDefinition(lib, "g", "x", Body(), comma);
    ReadDefinition(lib, "h", "a", NewMetric("a"), AfterDefs());
    AdvanceOver("(", FromG());
    AdvanceOver(",", FromH());
    var was := Query(lib).was;
    assert [] + [was[0]] == [was[0]] && [was[0]] + [was[1]] == was;
    assert ParseWithArgs(lib, Good(comma), [was[0]]) == Parsed(was, Good(AfterDefs()));
  }

  lemma CallComesLast()
    ensures AfterDefs()[0] == ")"
  {
  }

  lemma QueryParses(lib: Lib)
    requires ReadsQuery(lib)
    ensures ParseQuery(lib, Good(QUERY)) == Some(Query(lib))
  {
    hide MarkOf, KeywordOf, OpOf, ParseWithArgs, ParseExpr, Readable, Print, Raw, Advance, Body, Reference, EndsExpr, FromG;
    CallReads(lib);
    MarksOfPunctuation();
    EndOfQuery();
    QueryTokens();
    DefinitionsParse(lib);
    AdvanceOver("with", ["("] + FromG());
    AdvanceOver("(", FromG());
    AdvanceOver(")", CALL);
    assert EndsExpr(Tok(Good([]))) by { EndTokens(); }
    ReadExpr(lib, Func("h", [Argument()]), []);
    assert CALL + [] == CALL;
    assert KeywordOf("with") == WithWord by { WithIsKeyword(); }
    NamesDiffer(lib);
    assert ParseWith(lib, Good(QUERY)) == Parsed(Query(lib), Good([]));
    assert ParseSingle(lib, Good(QUERY)) == Parsed(Query(lib), Good([]));
    ReadEnd(lib, Query(lib), []);
    WholeQuery(lib, Good(QUERY), Query(lib));
  }

  lemma NamesDiffer(lib: Lib)
    ensures !RepeatsName(Query(lib).was)
  {
    assert "g" != "h";
  }

  lemma EndTokens()
    ensures EndsExpr(",") && EndsExpr(")") && EndsExpr("")
  {
  }

  lemma WithIsKeyword()
    ensures KeywordOf("with") == WithWord
  {
    assert Lower("with") == "with";
  }

  lemma WholeQuery(lib: Lib, s: Stream, e: Expr)
    requires ParseSingle(lib, s) == Parsed(e, Good([])) && ParseOperations(lib, e, Good([])) == Parsed(e, Good([]))
    ensures ParseQuery(lib, s) == Some(e)
  {
    hide ParseSingle, ParseOperations;
  }

  // ----- the query is expanded -----

  /** Definitions that the query does not touch. */
  predicate Untouched(was: seq<Entry>) {
    && ScopeWellFormed(was)
    && forall k | 0 <= k < |was| :: was[k].name !in {"g", "h", "x", "a"} && (was[k].isArg || was[k].id < 0)
  }

  function G(): Entry { Entry(26, "g", ["x"], Body(), false) }

  function H(lib: Lib): Entry { Entry(14, "h", ["a"], Reference(lib, "a"), false) }

  /** The scope in which the body of `h` is expanded. */
  function Inside(was: seq<Entry>, arg: Expr): seq<Entry> { was + [G()] + [Entry(0, "a", [], arg, true)] }

  lemma BodyIsFine()
    ensures Has(WellFormed, Body()) && Has(Expanded, Body()) && Has(Expanded, Parens([Body()]))
  {
  }

  lemma CallIsFine(n: Expr)
    requires n.Number?
    ensures Has(WellFormed, n) && Has(WellFormed, Func("g", [n])) && HasAll(Expanded, [n])
  {
  }

  lemma NoModifierStays(scope: seq<Entry>)
    ensures ExpandModifier(scope, NO_MODIFIER) == Ok(NO_MODIFIER)
  {
    ModifierStays(scope, NO_MODIFIER);
  }

  lemma {:induction false} NotFound(scope: seq<Entry>, name: string)
    requires forall k | 0 <= k < |scope| :: scope[k].name != name
    ensures Lookup(scope, name) < 0
  {
  }

  /** Without `g` in scope the body stays as it is. */
  lemma BodyStays(lib: Lib, mode: Mode, scope: seq<Entry>)
    requires ScopeWellFormed(scope) && Lookup(scope, "g") < 0
    ensures Has(WellFormed, Body()) && Expand(lib, mode, scope, Body()) == Ok(Parens([Body()]))
  {
    hide ExpandAll, ExpandModifier;
    BodyIsFine();
    ExpandSingle(lib, mode, scope, [One()]);
    NoModifierStays(scope);
    assert Expand(lib, mode, scope, Func("g", [One()])) == Ok(Func("g", [One()]));
  }

  lemma GIsThere(was: seq<Entry>, more: seq<Entry>)
    requires Untouched(was) && forall k | 0 <= k < |more| :: more[k].name != "g"
    ensures var scope := was + [G()] + more;
            Lookup(scope, "g") == |was| && scope[|was|] == G() && forall mode :: Base(mode, scope, |was|) == was
  {
    hide ScopeWellFormed;
    var scope := was + [G()] + more;
    LookupBefore(was + [G()], more, "g");
    assert (was + [G()])[|was|] == G();
    assert forall k | 0 <= k < |was| :: scope[k] == was[k];
    assert scope[..|was|] == was;
  }

  /** A call of `g` while its definition is in scope. */
  lemma CallOfG(lib: Lib, mode: Mode, was: seq<Entry>, more: seq<Entry>, n: Expr)
    requires Untouched(was) && ScopeWellFormed(was + [G()] + more) && forall k | 0 <= k < |more| :: more[k].name != "g"
    requires n.Number?
    ensures Has(WellFormed, Func("g", [n]))
    ensures Expand(lib, mode, was + [G()] + more, Func("g", [n])) == Ok(Parens([Body()]))
  {
    hide ExpandAll, Weight, ArgCount, Body, Lookup, Has, HasAll, ExpandModifier, ScopeWellFormed, Base;
    var scope := was + [G()] + more;
    CallIsFine(n);
    assert Expand(lib, mode, scope, n) == Ok(n);
    ExpandSingle(lib, mode, scope, [n]);
    GIsThere(was, more);
    CallDescends(mode, scope, |was|, [n]);
    var inner := was + ArgEntries(["x"], [n]);
    assert forall k | 0 <= k < |inner| :: inner[k].name != "g" by { assert inner[|was|].name == "x"; }
    NotFound(inner, "g");
    BodyStays(lib, mode, inner);
  }

  /** With `g` in scope it is replaced once more. */
  lemma BodyGrows(lib: Lib, was: seq<Entry>)
    requires Untouched(was) && ScopeWellFormed(was + [G()])
    ensures Has(WellFormed, Parens([Body()]))
    ensures Expand(lib, AsWritten, was + [G()], Parens([Body()])) == Ok(Grown())
  {
    hide ExpandModifier, Lookup, ScopeWellFormed, Weight, ArgCount;
    BodyIsFine();
    var scope := was + [G()];
    assert scope + [] == scope;
    CallOfG(lib, AsWritten, was, [], One());
    NoModifierStays(scope);
    OperationGrows(lib, scope);
    ExpandSingle(lib, AsWritten, scope, [Body()]);
  }

  lemma OperationGrows(lib: Lib, scope: seq<Entry>)
    requires ScopeWellFormed(scope) && Has(WellFormed, Body()) && ExpandModifier(scope, NO_MODIFIER) == Ok(NO_MODIFIER)
    requires Has(WellFormed, Func("g", [One()])) && Expand(lib, AsWritten, scope, Func("g", [One()])) == Ok(Parens([Body()]))
    ensures Expand(lib, AsWritten, scope, Body()) == Ok(Parens([Binary(PLUS, One(), Parens([Body()]))]))
  {
    hide ExpandModifier, ExpandAll, Lookup, ScopeWellFormed, Weight, ArgCount, Call;
  }

  function Read(mode: Mode): Expr { if mode == ByValue then Parens([Body()]) else Grown() }

  /** Reading the argument in the body of `h`. */
  lemma ArgumentYields(lib: Lib, mode: Mode, was: seq<Entry>)
    requires Untouched(was) && ScopeWellFormed(was + [G()]) && ScopeWellFormed(Inside(was, Parens([Body()])))
    ensures Call(lib, mode, Inside(was, Parens([Body()])), |was| + 1, None) == Ok(Read(mode))
  {
    hide Expand, Body, Lookup, Has, ScopeWellFormed, Untouched;
    var scope := Inside(was, Parens([Body()]));
    BodyGrows(lib, was);
    if mode == AsWritten {
      CallDescends(AsWritten, scope, |was| + 1, []);
      assert scope[..|was| + 1] == was + [G()];
      assert Base(AsWritten, scope, |was| + 1) + ArgEntries([], []) == was + [G()];
    }
  }

  /** The body of `h` is the argument as it is read. */
  lemma ArgumentIsRead(lib: Lib, mode: Mode, was: seq<Entry>)
    requires LibraryOk(lib) && Untouched(was) && ScopeWellFormed(was + [G()]) && ScopeWellFormed(Inside(was, Parens([Body()])))
    ensures Has(WellFormed, Reference(lib, "a"))
    ensures Expand(lib, mode, Inside(was, Parens([Body()])), Reference(lib, "a")) == Ok(Read(mode))
  {
    hide Call, ExpandFilters, Unescape, ExpandString, Escape, Lookup, WithoutRepeatedKeys, Has, Weight, ArgCount, Defs;
    hide Untouched, ScopeWellFormed, Body;
    var scope := Inside(was, Parens([Body()]));
    var f := LabelFilter("__name__", "a", false, false);
    PlainNames();
    assert Lookup(scope, "a") == |was| + 1 by { LastIsFound(scope, "a"); }
    NameFilterExpands(lib, mode, scope, "a");
    OneFilterStays(lib, f);
    ArgumentYields(lib, mode, was);
  }

  lemma LastIsFound(scope: seq<Entry>, name: string)
    requires scope != [] && scope[|scope| - 1].name == name
    ensures Lookup(scope, name) == |scope| - 1
  {
  }

  lemma ScopesAreFine(lib: Lib, was: seq<Entry>)
    requires Untouched(was) && Has(WellFormed, Reference(lib, "a"))
    ensures ScopeWellFormed(was + [G()]) && ScopeWellFormed(was + [G()] + [H(lib)]) && ScopeWellFormed(Inside(was, Parens([Body()])))
  {
    hide Body, Reference;
    BodyIsFine();
    ExpandedIsWellFormed(Parens([Body()]));
  }

  lemma HIsThere(lib: Lib, was: seq<Entry>)
    requires Untouched(was)
    ensures var scope := was + [G()] + [H(lib)];
            && Lookup(scope, "h") == |was| + 1
            && Base(AsWritten, scope, |was| + 1) == was + [G()] && Base(ByValue, scope, |was| + 1) == was + [G()]
  {
    hide ScopeWellFormed, Body, Reference;
    var scope := was + [G()] + [H(lib)];
    LastIsFound(scope, "h");
    assert scope[|was| + 1] == H(lib) && scope[|was|] == G();
    assert forall k | 0 <= k < |was| :: scope[k] == was[k];
    assert FirstSame(scope, |was| + 1) == |was| + 1;
    assert scope[..|was| + 1] == was + [G()];
  }

  lemma CallOfH(lib: Lib, mode: Mode, was: seq<Entry>)
    requires LibraryOk(lib) && Untouched(was)
    ensures ScopeWellFormed(was + [G()] + [H(lib)]) && Has(WellFormed, Func("h", [Argument()]))
    ensures Expand(lib, mode, was + [G()] + [H(lib)], Func("h", [Argument()])) == Ok(Read(mode))
  {
    hide Body, Lookup, Has, ScopeWellFormed, ExpandAll, Weight, ArgCount, Defs, Reference, Untouched, Base;
    var scope, arg := was + [G()] + [H(lib)], Parens([Body()]);
    ReferenceIsFine(lib);
    ScopesAreFine(lib, was);
    CallOfG(lib, mode, was, [H(lib)], Number(Finite(2.0)));
    ExpandSingle(lib, mode, scope, [Argument()]);
    assert Has(WellFormed, Func("h", [Argument()])) by { ItemsAreFine([Argument()]); }
    BodyIsFine();
    HIsThere(lib, was);
    assert was + [G()] + ArgEntries(["a"], [arg]) == Inside(was, arg);
    CallDescends(mode, scope, |was| + 1, [arg]);
    ArgumentIsRead(lib, mode, was);
    assert Call(lib, mode, scope, |was| + 1, Some([arg])) == Ok(Read(mode));
  }

  lemma ItemsAreFine(args: seq<Expr>)
    requires HasAll(WellFormed, args)
    ensures Has(WellFormed, Func("h", args))
  {
  }

  lemma ReferenceIsFine(lib: Lib)
    ensures Has(WellFormed, Reference(lib, "a"))
  {
  }

  lemma QueryExpands(lib: Lib, mode: Mode, was: seq<Entry>)
    requires LibraryOk(lib) && Untouched(was)
    ensures Has(WellFormed, Query(lib)) && Expand(lib, mode, was, Query(lib)) == Ok(Read(mode))
  {
    hide Body, Lookup, Has, ScopeWellFormed, ExpandAll, Weight, ArgCount, Defs, Reference, Untouched, Read;
    CallOfH(lib, mode, was);
    QueryIsFine(lib);
    assert was + DefEntries(Query(lib).was) == was + [G()] + [H(lib)];
  }

  lemma QueryIsFine(lib: Lib)
    ensures Has(WellFormed, Query(lib))
  {
    hide Body, Reference;
    BodyIsFine();
    ReferenceIsFine(lib);
    CallIsFine(Number(Finite(2.0)));
    assert HasAll(WellFormed, [Argument()]);
  }

  // ----- the results -----

  lemma ReadWithoutParens(fl: Floats, mode: Mode)
    ensures Simplify(fl, RemoveParens(Read(mode))) == if mode == ByValue then Body() else Binary(PLUS, One(), Body())
  {
    var args := [One()];
    assert RemoveParensAll(args) == args && SimplifyAll(fl, args) == args;
    assert RemoveParens(Body()) == Body() && Simplify(fl, Body()) == Body();
    var grown := Binary(PLUS, One(), Body());
    assert RemoveParens(Grown()) == grown by {
      assert RemoveParensAll([Body()]) == [Body()];
      assert RemoveParensAll([Binary(PLUS, One(), Parens([Body()]))]) == [grown];
      assert RemoveParensAll(Grown().args) == [grown];
    }
    assert RemoveParens(Parens([Body()])) == Body() by { assert RemoveParensAll([Body()]) == [Body()]; }
  }

  lemma DefaultsAreUntouched(lib: Lib)
    ensures Untouched(DefaultScope(lib))
  {
    hide Has, ScopeWellFormed, Ru, Ttf, MedianOverTime, RangeMedian, Alias, Fine;
    DefaultScopeIsUsable(lib, {});
    DefaultScopeFacts(lib);
  }

  /** Parsed under the known definitions, the query yields `1 + (1 + g(1))`,
      while evaluation by value yields `1 + g(1)`: the argument of `h` holds a
      call of `g` that was left over when `g` was replaced, and it is replaced
      again as the argument is read. */
  lemma ArgumentIsExpandedTwice(lib: Lib, fl: Floats)
    requires ReadsQuery(lib)
    ensures ScopeWellFormed(DefaultScope(lib))
    ensures Parse(lib, fl, AsWritten, DefaultScope(lib), Good(QUERY)) == Ok(Binary(PLUS, One(), Body()))
    ensures Parse(lib, fl, ByValue, DefaultScope(lib), Good(QUERY)) == Ok(Body())
  {
    hide Expand, RemoveParens, Simplify, DefaultScope, Untouched, ParseQuery, Body, Read, Query, ScopeWellFormed, QUERY;
    DefaultsAreUntouched(lib);
    assert ScopeWellFormed(DefaultScope(lib)) by { UntouchedIsFine(DefaultScope(lib)); }
    QueryParses(lib);
    QueryExpands(lib, AsWritten, DefaultScope(lib));
    QueryExpands(lib, ByValue, DefaultScope(lib));
    ReadWithoutParens(fl, AsWritten);
    ReadWithoutParens(fl, ByValue);
  }

  lemma UntouchedIsFine(was: seq<Entry>)
    requires Untouched(was)
    ensures ScopeWellFormed(was)
  {
  }
}
