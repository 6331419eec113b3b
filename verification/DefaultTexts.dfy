/** The texts of the definitions that every query sees, token by token, and
    the trees that the parser makes of them. */
module DefaultTexts {
  import opened Text
  import opened Syntax
  import opened Library
  import opened Scan
  import opened Operators
  import opened Grammar
  import opened Lexicon
  import opened Printer
  import opened RoundTrip
  import opened Expansion
  import opened Defaults

  // ----- tokens that are read as an expression wherever they stand -----

  /** Read as one expression without operators, whatever ends it. */
  ghost predicate IsSingle(lib: Lib, toks: seq<string>, e: Expr) {
    && toks != [] && KeywordOf(toks[0]) == NoKeyword && MarkOf(toks[0]) in {Minus, Other}
    && forall rest | EndsSingle(Tok(Good(rest))) :: ParseSingle(lib, Good(toks + rest)) == Parsed(e, Good(rest))
  }

  ghost predicate IsWhole(lib: Lib, toks: seq<string>, e: Expr) {
    && toks != [] && MarkOf(toks[0]) in {Minus, Other}
    && forall rest | EndsExpr(Tok(Good(rest))) :: ParseExpr(lib, Good(toks + rest)) == Parsed(e, Good(rest))
  }

  /** A word of the texts. */
  predicate IsName(t: string) { IsIdentPrefix(t) && KeywordOf(t) == NoKeyword }

  lemma SingleIsWhole(lib: Lib, toks: seq<string>, e: Expr)
    requires IsSingle(lib, toks, e)
    ensures IsWhole(lib, toks, e)
  {
    hide ParseSingle, ParseOperations, MarkOf, KeywordOf;
    forall rest | EndsExpr(Tok(Good(rest))) ensures ParseExpr(lib, Good(toks + rest)) == Parsed(e, Good(rest)) {
      assert EndsSingle(Tok(Good(rest)));
      EndsExprFacts(Tok(Good(rest)));
      ReadEnd(lib, e, rest);
    }
  }

  lemma NumeralIsSingle(lib: Lib, t: string, v: Num)
    requires IsNumberPrefix(t) && lib.parseFloat(t) == Some(v)
    ensures IsSingle(lib, [t], Number(v))
  {
    hide ParseSingle, MarkOf, KeywordOf, IsNumberPrefix;
    NotAKeyword(t) by { assert t != "" && !IsLetter(t[0]) by { DigitsAreNoLetters(t); } }
    NumeralMarks(t);
    forall rest | EndsSingle(Tok(Good(rest))) ensures ParseSingle(lib, Good([t] + rest)) == Parsed(Number(v), Good(rest)) {
      EndsAtomFacts(Tok(Good(rest)));
      BracketEndsNothing(Tok(Good(rest)));
      ReadNumeral(lib, t, v, rest);
    }
  }

  lemma DigitsAreNoLetters(t: string)
    requires IsNumberPrefix(t)
    ensures t != "" && !IsLetter(t[0])
  {
  }

  lemma NameIsSingle(lib: Lib, t: string)
    requires IsName(t)
    ensures IsSingle(lib, [t], Selector(lib, t))
  {
    hide ParseSingle, MarkOf, KeywordOf, IsIdentPrefix;
    IdentMarks(t);
    forall rest | EndsSingle(Tok(Good(rest))) ensures ParseSingle(lib, Good([t] + rest)) == Parsed(Selector(lib, t), Good(rest)) {
      ReadName(lib, t, rest);
    }
  }

  lemma ReadName(lib: Lib, t: string, rest: seq<string>)
    requires IsName(t) && EndsSingle(Tok(Good(rest)))
    ensures ParseSingle(lib, Good([t] + rest)) == Parsed(Selector(lib, t), Good(rest))
  {
    hide MarkOf, KeywordOf, IsIdentPrefix, OpOf, ParseRollup;
    EndsAtomFacts(Tok(Good(rest)));
    BracketEndsNothing(Tok(Good(rest)));
    IdentMarks(t);
    assert !IsNumberStart(t) by { NotANumeral(t); }
    AdvanceOver(t, rest);
    var s := Good([t] + rest);
    assert ParseMetric(lib, s) == Parsed(Selector(lib, t), Good(rest));
    assert ParseIdentExpr(lib, s) == ParseMetric(lib, s);
    assert ParseUnsuffixed(lib, s) == ParseIdentExpr(lib, s);
  }

  /** Zero minus a single expression. */
  lemma NegativeIsSingle(lib: Lib, toks: seq<string>, e: Expr)
    requires IsSingle(lib, toks, e)
    ensures IsSingle(lib, ["-"] + toks, Negative(e))
  {
    hide ParseSingle, MarkOf, KeywordOf;
    SignMarks("-");
    var all := ["-"] + toks;
    forall rest | EndsSingle(Tok(Good(rest))) ensures ParseSingle(lib, Good(all + rest)) == Parsed(Negative(e), Good(rest)) {
      assert all + rest == ["-"] + (toks + rest);
      ReadSign(lib, "-", toks + rest);
      ReadNegative(lib, toks, e, rest);
    }
  }

  lemma ReadNegative(lib: Lib, toks: seq<string>, e: Expr, rest: seq<string>)
    requires EndsSingle(Tok(Good(rest))) && ParseUnsuffixed(lib, Good(["-"] + (toks + rest))) == Parsed(Negated(e), Good(rest))
    ensures ParseSingle(lib, Good(["-"] + (toks + rest))) == Parsed(Negative(e), Good(rest))
  {
    hide ParseUnsuffixed, MarkOf, KeywordOf;
    EndsAtomFacts(Tok(Good(rest)));
    BracketEndsNothing(Tok(Good(rest)));
    SignMarks("-");
    assert Tok(Good(["-"] + (toks + rest))) == "-";
  }

  // ----- calls -----

  /** Argument lists between the parens. */
  function Listed(items: seq<seq<string>>): seq<string> {
    if items == [] then [] else items[0] + (if |items| == 1 then [] else [","] + Listed(items[1..]))
  }

  ghost predicate AreWhole(lib: Lib, items: seq<seq<string>>, es: seq<Expr>) {
    |items| == |es| && forall i | 0 <= i < |items| :: IsWhole(lib, items[i], es[i])
  }

  lemma {:induction false} ReadItems(lib: Lib, items: seq<seq<string>>, es: seq<Expr>, open: string, before: seq<Expr>, rest: seq<string>)
    requires AreWhole(lib, items, es) && (open == "(" || open == ",") && (open == "," ==> items != [])
    ensures ParseList(lib, Good([open] + Listed(items) + [")"] + rest), before) == Parsed(before + es, Good(rest))
    decreases |items|
  {
    hide MarkOf, ParseExpr, IsWhole, Advance;
    MarksOfPunctuation();
    var all := [open] + Listed(items) + [")"] + rest;
    if items == [] {
      assert all == [open] + ([")"] + rest);
      AdvanceOver(open, [")"] + rest);
      AdvanceOver(")", rest);
      assert before + es == before;
    } else {
      var more := (if |items| == 1 then [] else [","] + Listed(items[1..])) + [")"] + rest;
      assert all == [open] + (items[0] + more);
      AdvanceOver(open, items[0] + more);
      assert Tok(Good(more)) == if |items| == 1 then ")" else ",";
      WholeIsRead(lib, items[0], es[0], more);
      if |items| == 1 {
        assert more == [")"] + rest;
        AdvanceOver(")", rest);
        assert es == [es[0]];
      } else {
        assert more == [","] + Listed(items[1..]) + [")"] + rest;
        ReadItems(lib, items[1..], es[1..], ",", before + [es[0]], rest);
        assert before + [es[0]] + es[1..] == before + es;
      }
    }
  }

  lemma WholeIsRead(lib: Lib, toks: seq<string>, e: Expr, rest: seq<string>)
    requires IsWhole(lib, toks, e) && EndsExpr(Tok(Good(rest)))
    ensures ParseExpr(lib, Good(toks + rest)) == Parsed(e, Good(rest))
    ensures MarkOf(Tok(Good(toks + rest))) != RParen
  {
    hide ParseExpr, MarkOf;
    assert Tok(Good(toks + rest)) == toks[0];
  }

  function CallTokens(f: string, items: seq<seq<string>>): seq<string> { [f, "("] + Listed(items) + [")"] }

  lemma CallIsSingle(lib: Lib, f: string, items: seq<seq<string>>, es: seq<Expr>)
    requires IsName(f) && AreWhole(lib, items, es)
    ensures IsSingle(lib, CallTokens(f, items), Func(f, es))
  {
    hide ParseSingle, MarkOf, KeywordOf, IsIdentPrefix, AreWhole, Listed;
    IdentMarks(f);
    forall rest | EndsSingle(Tok(Good(rest)))
      ensures ParseSingle(lib, Good(CallTokens(f, items) + rest)) == Parsed(Func(f, es), Good(rest))
    {
      ReadCall(lib, f, items, es, rest);
    }
  }

  lemma ReadCall(lib: Lib, f: string, items: seq<seq<string>>, es: seq<Expr>, rest: seq<string>)
    requires IsName(f) && AreWhole(lib, items, es) && EndsSingle(Tok(Good(rest)))
    ensures ParseSingle(lib, Good(CallTokens(f, items) + rest)) == Parsed(Func(f, es), Good(rest))
  {
    hide MarkOf, KeywordOf, IsIdentPrefix, OpOf, ParseRollup, ParseList, AreWhole, Listed;
    EndsAtomFacts(Tok(Good(rest)));
    BracketEndsNothing(Tok(Good(rest)));
    IdentMarks(f);
    assert !IsNumberStart(f) by { NotANumeral(f); }
    MarksOfPunctuation();
    Punctuation("(");
    var list := ["("] + Listed(items) + [")"] + rest;
    var s := Good(CallTokens(f, items) + rest);
    assert CallTokens(f, items) + rest == [f] + list;
    AdvanceOver(f, list);
    assert Tok(Good(list)) == "(";
    ReadItems(lib, items, es, "(", [], rest);
    assert [] + es == es;
    assert ParseFunc(lib, s) == Parsed(Func(f, es), Good(rest));
    assert ParseIdentExpr(lib, s) == ParseFunc(lib, s);
    assert ParseUnsuffixed(lib, s) == ParseIdentExpr(lib, s);
  }

  // ----- operators -----

  /** Read as operators and operands after `left`. */
  ghost predicate Continues(lib: Lib, left: Expr, toks: seq<string>, e: Expr) {
    && (toks != [] ==> EndsSingle(toks[0]))
    && forall rest | EndsExpr(Tok(Good(rest))) :: ParseOperations(lib, left, Good(toks + rest)) == Parsed(e, Good(rest))
  }

  lemma NothingContinues(lib: Lib, e: Expr)
    ensures Continues(lib, e, [], e)
  {
    hide ParseOperations;
    forall rest | EndsExpr(Tok(Good(rest))) ensures ParseOperations(lib, e, Good([] + rest)) == Parsed(e, Good(rest)) {
      assert [] + rest == rest;
      EndsExprFacts(Tok(Good(rest)));
      ReadEnd(lib, e, rest);
    }
  }

  lemma OperatorContinues(lib: Lib, left: Expr, op: BinOp, toks: seq<string>, right: Expr, more: seq<string>, e: Expr)
    requires IsSingle(lib, toks, right) && Continues(lib, Balance(left, Plain(op), right), more, e)
    ensures Continues(lib, left, [OpText(op)] + toks + more, e)
  {
    hide ParseOperations, ParseSingle, MarkOf, KeywordOf, Balance, OpText;
    var all := [OpText(op)] + toks + more;
    assert EndsSingle(all[0]);
    forall rest | EndsExpr(Tok(Good(rest))) ensures ParseOperations(lib, left, Good(all + rest)) == Parsed(e, Good(rest)) {
      assert all + rest == [OpText(op)] + (toks + (more + rest));
      assert EndsSingle(Tok(Good(more + rest))) by { FirstOfMore(more, rest); }
      ReadOperator(lib, left, op, toks, right, more + rest);
    }
  }

  lemma FirstOfMore(more: seq<string>, rest: seq<string>)
    ensures Tok(Good(more + rest)) == if more == [] then Tok(Good(rest)) else more[0]
  {
    assert more == [] ==> more + rest == rest;
  }

  function Plain(op: BinOp): OpInfo { OpInfo(op, false, NO_MODIFIER, NO_MODIFIER) }

  lemma ReadOperator(lib: Lib, left: Expr, op: BinOp, toks: seq<string>, right: Expr, rest: seq<string>)
    requires IsSingle(lib, toks, right) && EndsSingle(Tok(Good(rest)))
    ensures ParseOperations(lib, left, Good([OpText(op)] + (toks + rest))) == ParseOperations(lib, Balance(left, Plain(op), right), Good(rest))
  {
    hide ParseSingle, MarkOf, KeywordOf, OpOf, Balance, OpText, ParseOperations, ParseOpModifiers;
    OperatorToken(op);
    AdvanceOver(OpText(op), toks + rest);
    assert Tok(Good(toks + rest)) == toks[0];
    assert ParseOpModifiers(op, Good(toks + rest)) == Parsed(Plain(op), Good(toks + rest)) by { NoModifiers(op, Good(toks + rest)); }
    OperationStep(lib, left, Good([OpText(op)] + (toks + rest)), Good(toks + rest), Plain(op), Good(toks + rest), right, Good(rest));
  }

  lemma NoModifiers(op: BinOp, s: Stream)
    requires KeywordOf(Tok(s)) == NoKeyword
    ensures ParseOpModifiers(op, s) == Parsed(Plain(op), s)
  {
    hide KeywordOf;
  }

  lemma OperationIsWhole(lib: Lib, toks: seq<string>, first: Expr, more: seq<string>, e: Expr)
    requires IsSingle(lib, toks, first) && Continues(lib, first, more, e)
    ensures IsWhole(lib, toks + more, e)
  {
    hide ParseSingle, ParseOperations, MarkOf, KeywordOf;
    forall rest | EndsExpr(Tok(Good(rest))) ensures ParseExpr(lib, Good(toks + more + rest)) == Parsed(e, Good(rest)) {
      assert toks + more + rest == toks + (more + rest);
      assert EndsSingle(Tok(Good(more + rest))) by { FirstOfMore(more, rest); }
    }
  }

  /** One operator. */
  lemma BinaryIsWhole(lib: Lib, a: seq<string>, x: Expr, op: BinOp, b: seq<string>, y: Expr)
    requires IsSingle(lib, a, x) && IsSingle(lib, b, y) && !x.Binary?
    ensures IsWhole(lib, a + ([OpText(op)] + b), Operation(op, x, y))
  {
    hide IsSingle, Continues, IsWhole, OpText;
    var e := Operation(op, x, y);
    NothingContinues(lib, e);
    OperatorContinues(lib, x, op, b, y, [], e);
    assert [OpText(op)] + b + [] == [OpText(op)] + b;
    OperationIsWhole(lib, a, x, [OpText(op)] + b, e);
  }

  /** Two operators of the same priority, which associate to the left. */
  lemma ChainIsWhole(lib: Lib, a: seq<string>, x: Expr, op: BinOp, b: seq<string>, y: Expr, op': BinOp, c: seq<string>, z: Expr)
    requires IsSingle(lib, a, x) && IsSingle(lib, b, y) && IsSingle(lib, c, z) && !x.Binary? && !y.Binary?
    requires Priority(op) == Priority(op') && !IsRightAssociative(op')
    ensures IsWhole(lib, a + ([OpText(op)] + b + ([OpText(op')] + c)), Operation(op', Operation(op, x, y), z))
  {
    hide IsSingle, Continues, IsWhole, OpText, Priority, IsRightAssociative;
    var xy := Operation(op, x, y);
    var e := Operation(op', xy, z);
    NothingContinues(lib, e);
    OperatorContinues(lib, xy, op', c, z, [], e);
    assert [OpText(op')] + c + [] == [OpText(op')] + c;
    OperatorContinues(lib, x, op, b, y, [OpText(op')] + c, e);
    OperationIsWhole(lib, a, x, [OpText(op)] + b + ([OpText(op')] + c), e);
  }

  // ----- the words of the texts -----

  /** What the texts need of the library: their numerals, and that no
      definition has the name of a function. */
  ghost predicate ReadsTexts(lib: Lib) {
    && lib.parseFloat("0") == Some(Finite(0.0)) && lib.parseFloat("100") == Some(Finite(100.0))
    && lib.parseFloat("365") == Some(Finite(365.0)) && lib.parseFloat("24") == Some(Finite(24.0))
    && lib.parseFloat("3600") == Some(Finite(3600.0)) && lib.parseFloat("300") == Some(Finite(300.0))
    && lib.parseFloat("1") == Some(Finite(1.0)) && lib.parseFloat("0.5") == Some(Finite(0.5))
    && !lib.isRollupOrTransform("ru") && !lib.isRollupOrTransform("ttf") && !lib.isRollupOrTransform("median_over_time")
    && !lib.isRollupOrTransform("range_median") && !lib.isRollupOrTransform("alias")
  }

  /** A word in lower case that is no keyword. */
  lemma WordIsName(t: string)
    requires t != "" && (forall c <- t :: 'a' <= c <= 'z' || c == '_') && t !in AGGR_FUNCS
    requires t !in {"with", "offset", "bool", "limit", "on", "ignoring", "group_left", "group_right", "by", "without", "inf", "nan"}
    ensures IsName(t)
  {
    hide AGGR_FUNCS;
    assert forall i | 0 <= i < |t| :: t[i] in t;
    assert Lower(t) == t;
    assert t[0] in t;
  }

  lemma ParameterWords()
    ensures IsName("m") && IsName("q")
  {
    WordIsName("m");
    WordIsName("q");
  }

  lemma AliasWords()
    ensures IsName("name") && IsName("alias")
  {
    WordIsName("name");
    WordIsName("alias");
  }

  lemma UsageWords()
    ensures IsName("ru") && IsName("freev") && IsName("maxv")
  {
    WordIsName("ru");
    WordIsName("freev");
    WordIsName("maxv");
  }

  lemma TimeWords()
    ensures IsName("ttf") && IsName("step")
  {
    WordIsName("ttf");
    WordIsName("step");
  }

  lemma ClampWords()
    ensures IsName("clamp_min") && IsName("clamp_max")
  {
    WordIsName("clamp_min");
    WordIsName("clamp_max");
  }

  lemma SmoothWords()
    ensures IsName("smooth_exponential") && IsName("deriv_fast")
  {
    WordIsName("smooth_exponential");
    WordIsName("deriv_fast");
  }

  lemma MedianWords()
    ensures IsName("median_over_time") && IsName("quantile_over_time")
  {
    WordIsName("median_over_time");
    WordIsName("quantile_over_time");
  }

  lemma RangeWords()
    ensures IsName("range_median") && IsName("range_quantile")
  {
    WordIsName("range_median");
    WordIsName("range_quantile");
  }

  lemma LabelWords()
    ensures IsName("label_set")
  {
    WordIsName("label_set");
  }

  // ----- the definitions -----

  function HeadTokens(name: string, params: seq<string>): seq<string> { [name, "("] + PrintIdents(params) + [")", "="] }

  /** A definition with its parameters and its body. */
  lemma ReadDefinition(lib: Lib, name: string, params: seq<string>, body: seq<string>, e: Expr)
    requires IsName(name) && !lib.isRollupOrTransform(name) && AreIdents(params) && !Repeats(params) && IsWhole(lib, body, e)
    ensures var toks := HeadTokens(name, params) + body;
            ParseWithArg(lib, Good(toks)) == Parsed(WithArg(|toks|, name, params, e), Good([]))
  {
    hide MarkOf, KeywordOf, ParseExpr, ParseParams, IsIdentPrefix, IsWhole, Advance, Repeats, PrintIdents;
    var toks := HeadTokens(name, params) + body;
    var list := ["("] + PrintIdents(params) + [")"] + (["="] + body);
    assert toks == [name] + list;
    AdvanceOver(name, list);
    ReadParams(params, ["="] + body);
    AdvanceOver("=", body);
    assert MarkOf("=") == Equal by { FilterOperator("="); }
    assert EndsExpr(Tok(Good([]))) && body + [] == body;
    WholeIsRead(lib, body, e, []);
  }

  lemma ReadParams(params: seq<string>, rest: seq<string>)
    requires AreIdents(params)
    ensures ParseParams(Good(["("] + PrintIdents(params) + [")"] + rest)) == Parsed(params, Good(rest))
  {
    hide MarkOf, ParseIdentList, PrintIdents;
    MarksOfPunctuation();
    ReadIdentList(params, "(", [], rest);
    assert [] + params == params;
  }

  lemma OneParam(p: string)
    requires IsName(p)
    ensures AreIdents([p]) && !Repeats([p])
  {
  }

  lemma TwoParams(p: string, q: string)
    requires IsName(p) && IsName(q) && p != q
    ensures AreIdents([p, q]) && !Repeats([p, q])
  {
  }

  /** A call with one or two arguments. */
  lemma CallOfOne(lib: Lib, f: string, a: seq<string>, x: Expr)
    requires IsName(f) && IsWhole(lib, a, x)
    ensures IsSingle(lib, CallTokens(f, [a]), Func(f, [x]))
  {
    hide IsWhole, IsSingle, CallTokens;
    CallIsSingle(lib, f, [a], [x]);
  }

  lemma CallOfTwo(lib: Lib, f: string, a: seq<string>, x: Expr, b: seq<string>, y: Expr)
    requires IsName(f) && IsWhole(lib, a, x) && IsWhole(lib, b, y)
    ensures IsSingle(lib, CallTokens(f, [a, b]), Func(f, [x, y]))
  {
    hide IsWhole, IsSingle, CallTokens;
    CallIsSingle(lib, f, [a, b], [x, y]);
  }

  function Infix(a: seq<string>, op: BinOp, b: seq<string>): seq<string> { a + ([OpText(op)] + b) }

  function Chained(a: seq<string>, op: BinOp, b: seq<string>, op': BinOp, c: seq<string>): seq<string> {
    a + ([OpText(op)] + b + ([OpText(op')] + c))
  }

  /** `clamp_min(maxv - clamp_min(freev, 0), 0) / clamp_min(maxv, 0) * 100` */
  function RuTokens(): seq<string> {
    Chained(CallTokens("clamp_min", [Infix(["maxv"], Sub, CallTokens("clamp_min", [["freev"], ["0"]])), ["0"]]),
            Div, CallTokens("clamp_min", [["maxv"], ["0"]]),
            Mul, ["100"])
  }

  lemma RuIsWhole(lib: Lib)
    requires ReadsTexts(lib)
    ensures IsWhole(lib, RuTokens(), Ru(lib))
  {
    hide IsName, IsSingle, IsWhole, CallTokens, Infix, Chained;
    UsageWords();
    ClampWords();
    NumeralIsSingle(lib, "0", Finite(0.0));
    NumeralIsSingle(lib, "100", Finite(100.0));
    SingleIsWhole(lib, ["0"], Constant(0.0));
    NameIsSingle(lib, "freev");
    NameIsSingle(lib, "maxv");
    var freev, maxv := Selector(lib, "freev"), Selector(lib, "maxv");
    SingleIsWhole(lib, ["freev"], freev);
    SingleIsWhole(lib, ["maxv"], maxv);
    var free, freeToks := Calling("clamp_min", [freev, Constant(0.0)]), CallTokens("clamp_min", [["freev"], ["0"]]);
    CallOfTwo(lib, "clamp_min", ["freev"], freev, ["0"], Constant(0.0));
    InfixIsWhole(lib, ["maxv"], maxv, Sub, freeToks, free);
    CallOfTwo(lib, "clamp_min", Infix(["maxv"], Sub, freeToks), Operation(Sub, maxv, free), ["0"], Constant(0.0));
    CallOfTwo(lib, "clamp_min", ["maxv"], maxv, ["0"], Constant(0.0));
    ChainedIsWhole(lib, CallTokens("clamp_min", [Infix(["maxv"], Sub, freeToks), ["0"]]),
                   Calling("clamp_min", [Operation(Sub, maxv, free), Constant(0.0)]),
                   Div, CallTokens("clamp_min", [["maxv"], ["0"]]), Calling("clamp_min", [maxv, Constant(0.0)]),
                   Mul, ["100"], Constant(100.0));
  }

  lemma InfixIsWhole(lib: Lib, a: seq<string>, x: Expr, op: BinOp, b: seq<string>, y: Expr)
    requires IsSingle(lib, a, x) && IsSingle(lib, b, y) && !x.Binary?
    ensures IsWhole(lib, Infix(a, op, b), Operation(op, x, y))
  {
    hide IsSingle, IsWhole;
    BinaryIsWhole(lib, a, x, op, b, y);
  }

  lemma ChainedIsWhole(lib: Lib, a: seq<string>, x: Expr, op: BinOp, b: seq<string>, y: Expr, op': BinOp, c: seq<string>, z: Expr)
    requires IsSingle(lib, a, x) && IsSingle(lib, b, y) && IsSingle(lib, c, z) && !x.Binary? && !y.Binary?
    requires Priority(op) == Priority(op') && !IsRightAssociative(op')
    ensures IsWhole(lib, Chained(a, op, b, op', c), Operation(op', Operation(op, x, y), z))
  {
    hide IsSingle, IsWhole;
    ChainIsWhole(lib, a, x, op, b, y, op', c, z);
  }

  /** `clamp_max(-freev, 0) / clamp_max(deriv_fast(freev), 0)` */
  function TimeLeftTokens(): seq<string> {
    Infix(CallTokens("clamp_max", [["-"] + ["freev"], ["0"]]), Div,
          CallTokens("clamp_max", [CallTokens("deriv_fast", [["freev"]]), ["0"]]))
  }

  lemma TimeLeftIsWhole(lib: Lib)
    requires ReadsTexts(lib)
    ensures IsWhole(lib, TimeLeftTokens(), TimeLeft(lib))
  {
    hide IsName, IsSingle, IsWhole, CallTokens, Infix;
    UsageWords();
    ClampWords();
    SmoothWords();
    NumeralIsSingle(lib, "0", Finite(0.0));
    SingleIsWhole(lib, ["0"], Constant(0.0));
    NameIsSingle(lib, "freev");
    var freev := Selector(lib, "freev");
    SingleIsWhole(lib, ["freev"], freev);
    NegativeIsSingle(lib, ["freev"], freev);
    SingleIsWhole(lib, ["-"] + ["freev"], Negative(freev));
    CallOfTwo(lib, "clamp_max", ["-"] + ["freev"], Negative(freev), ["0"], Constant(0.0));
    CallOfOne(lib, "deriv_fast", ["freev"], freev);
    var speed, speedToks := Calling("deriv_fast", [freev]), CallTokens("deriv_fast", [["freev"]]);
    SingleIsWhole(lib, speedToks, speed);
    CallOfTwo(lib, "clamp_max", speedToks, speed, ["0"], Constant(0.0));
    InfixIsWhole(lib, CallTokens("clamp_max", [["-"] + ["freev"], ["0"]]), Calling("clamp_max", [Negative(freev), Constant(0.0)]), Div,
                 CallTokens("clamp_max", [speedToks, ["0"]]), Calling("clamp_max", [speed, Constant(0.0)]));
  }

  /** `clamp_max(step()/300, 1)` */
  function FactorTokens(): seq<string> { CallTokens("clamp_max", [Infix(CallTokens("step", []), Div, ["300"]), ["1"]]) }

  lemma FactorIsWhole(lib: Lib)
    requires ReadsTexts(lib)
    ensures IsWhole(lib, FactorTokens(), SmoothingFactor())
  {
    hide IsName, IsSingle, IsWhole, CallTokens, Infix;
    TimeWords();
    ClampWords();
    NumeralIsSingle(lib, "300", Finite(300.0));
    NumeralIsSingle(lib, "1", Finite(1.0));
    SingleIsWhole(lib, ["1"], Constant(1.0));
    CallIsSingle(lib, "step", [], []);
    InfixIsWhole(lib, CallTokens("step", []), Calling("step", []), Div, ["300"], Constant(300.0));
    var part := Operation(Div, Calling("step", []), Constant(300.0));
    CallOfTwo(lib, "clamp_max", Infix(CallTokens("step", []), Div, ["300"]), part, ["1"], Constant(1.0));
    SingleIsWhole(lib, FactorTokens(), SmoothingFactor());
  }

  /** `smooth_exponential(clamp_max(..., 365*24*3600), clamp_max(step()/300, 1))` */
  function TtfTokens(): seq<string> {
    CallTokens("smooth_exponential",
               [CallTokens("clamp_max", [TimeLeftTokens(), Chained(["365"], Mul, ["24"], Mul, ["3600"])]), FactorTokens()])
  }

  lemma TtfIsWhole(lib: Lib)
    requires ReadsTexts(lib)
    ensures IsWhole(lib, TtfTokens(), Ttf(lib))
  {
    hide IsName, IsSingle, IsWhole, CallTokens, Chained, TimeLeftTokens, FactorTokens, TimeLeft, SmoothingFactor;
    ClampWords();
    SmoothWords();
    NumeralIsSingle(lib, "365", Finite(365.0));
    NumeralIsSingle(lib, "24", Finite(24.0));
    NumeralIsSingle(lib, "3600", Finite(3600.0));
    ChainedIsWhole(lib, ["365"], Constant(365.0), Mul, ["24"], Constant(24.0), Mul, ["3600"], Constant(3600.0));
    var year := Operation(Mul, Operation(Mul, Constant(365.0), Constant(24.0)), Constant(3600.0));
    var yearToks := Chained(["365"], Mul, ["24"], Mul, ["3600"]);
    TimeLeftIsWhole(lib);
    CallOfTwo(lib, "clamp_max", TimeLeftTokens(), TimeLeft(lib), yearToks, year);
    var left, leftToks := Calling("clamp_max", [TimeLeft(lib), year]), CallTokens("clamp_max", [TimeLeftTokens(), yearToks]);
    SingleIsWhole(lib, leftToks, left);
    FactorIsWhole(lib);
    CallOfTwo(lib, "smooth_exponential", leftToks, left, FactorTokens(), SmoothingFactor());
    SingleIsWhole(lib, TtfTokens(), Ttf(lib));
  }

  /** A quantile of one half. */
  lemma HalfIsWhole(lib: Lib, f: string, q: string)
    requires ReadsTexts(lib) && IsName(f) && IsName(q)
    ensures IsWhole(lib, CallTokens(f, [["0.5"], [q]]), Func(f, [Constant(0.5), Selector(lib, q)]))
  {
    hide IsName, IsSingle, IsWhole, CallTokens;
    NumeralIsSingle(lib, "0.5", Finite(0.5));
    SingleIsWhole(lib, ["0.5"], Constant(0.5));
    NameIsSingle(lib, q);
    SingleIsWhole(lib, [q], Selector(lib, q));
    CallOfTwo(lib, f, ["0.5"], Constant(0.5), [q], Selector(lib, q));
    SingleIsWhole(lib, CallTokens(f, [["0.5"], [q]]), Func(f, [Constant(0.5), Selector(lib, q)]));
  }

  const NAME_TOKEN := "\"__name__\""

  /** A literal that ends an argument. */
  lemma LiteralIsWhole(lib: Lib, t: string)
    requires IsStringPrefix(t)
    ensures IsWhole(lib, [t], Literal(t))
  {
    hide MarkOf, KeywordOf, OpOf, IsNumberStart;
    NotAKeyword(t);
    NotANumber(t);
    QuoteIsOther(t);
    forall rest | EndsExpr(Tok(Good(rest))) ensures ParseExpr(lib, Good([t] + rest)) == Parsed(Literal(t), Good(rest)) {
      ReadLiteral(lib, t, rest);
    }
  }

  lemma QuoteIsOther(t: string)
    requires IsStringPrefix(t)
    ensures MarkOf(t) == Other && !IsIdentPrefix(t)
  {
  }

  lemma ReadLiteral(lib: Lib, t: string, rest: seq<string>)
    requires IsStringPrefix(t) && EndsExpr(Tok(Good(rest))) && !IsNumberStart(t) && KeywordOf(t) == NoKeyword
    ensures ParseExpr(lib, Good([t] + rest)) == Parsed(Literal(t), Good(rest))
  {
    hide MarkOf, KeywordOf, OpOf, IsNumberStart, IsStringPrefix, ParseOperations;
    EndsExprFacts(Tok(Good(rest)));
    assert EndsSingle(Tok(Good(rest)));
    EndsAtomFacts(Tok(Good(rest)));
    BracketEndsNothing(Tok(Good(rest)));
    AdvanceOver(t, rest);
    PlusEndsNothing(rest);
    var s := Good([t] + rest);
    assert [] + [t] == [t];
    assert ParseString(s, []) == Parsed([t], Good(rest));
    assert ParseUnsuffixed(lib, s) == Parsed(Literal(t), Good(rest));
    assert ParseSingle(lib, s) == Parsed(Literal(t), Good(rest));
    ReadEnd(lib, Literal(t), rest);
  }

  lemma PlusEndsNothing(rest: seq<string>)
    requires EndsExpr(Tok(Good(rest)))
    ensures MarkOf(Tok(Good(rest))) != Plus
  {
    MarksOfPunctuation();
  }

  /** `label_set(q, "__name__", name)` */
  function AliasTokens(): seq<string> { CallTokens("label_set", [["q"], [NAME_TOKEN], ["name"]]) }

  lemma AliasIsWhole(lib: Lib)
    ensures IsWhole(lib, AliasTokens(), Alias(lib))
  {
    hide IsName, IsSingle, IsWhole, CallTokens;
    LabelWords();
    ParameterWords();
    AliasWords();
    NameIsSingle(lib, "q");
    NameIsSingle(lib, "name");
    SingleIsWhole(lib, ["q"], Selector(lib, "q"));
    SingleIsWhole(lib, ["name"], Selector(lib, "name"));
    LiteralIsWhole(lib, NAME_TOKEN);
    var items, es := [["q"], [NAME_TOKEN], ["name"]], [Selector(lib, "q"), Literal(NAME_TOKEN), Selector(lib, "name")];
    assert AreWhole(lib, items, es);
    CallIsSingle(lib, "label_set", items, es);
    SingleIsWhole(lib, AliasTokens(), Alias(lib));
  }

  /** The tokens of the five texts. */
  function TextTokens(): (texts: seq<seq<string>>)
    ensures |texts| == 5
  {
    [HeadTokens("ru", ["freev", "maxv"]) + RuTokens(),
     HeadTokens("ttf", ["freev"]) + TtfTokens(),
     HeadTokens("median_over_time", ["m"]) + CallTokens("quantile_over_time", [["0.5"], ["m"]]),
     HeadTokens("range_median", ["q"]) + CallTokens("range_quantile", [["0.5"], ["q"]]),
     HeadTokens("alias", ["q", "name"]) + AliasTokens()]
  }

  /** Entry `x` is the definition that the tokens are read as. */
  predicate IsReadAs(lib: Lib, toks: seq<string>, x: Entry) {
    ParseWithArg(lib, Good(toks)) == Parsed(WithArg(|toks|, x.name, x.params, x.body), Good([]))
  }

  lemma UsageIsRead(lib: Lib)
    requires ReadsTexts(lib)
    ensures IsReadAs(lib, HeadTokens("ru", ["freev", "maxv"]) + RuTokens(), Entry(-1, "ru", ["freev", "maxv"], Ru(lib), false))
    ensures IsReadAs(lib, HeadTokens("ttf", ["freev"]) + TtfTokens(), Entry(-2, "ttf", ["freev"], Ttf(lib), false))
  {
    hide IsName, IsWhole, RuTokens, TtfTokens, HeadTokens, Ru, Ttf, ParseWithArg;
    UsageWords();
    TimeWords();
    assert "freev" != "maxv";
    TwoParams("freev", "maxv");
    OneParam("freev");
    RuIsWhole(lib);
    TtfIsWhole(lib);
    ReadDefinition(lib, "ru", ["freev", "maxv"], RuTokens(), Ru(lib));
    ReadDefinition(lib, "ttf", ["freev"], TtfTokens(), Ttf(lib));
  }

  lemma MediansAreRead(lib: Lib)
    requires ReadsTexts(lib)
    ensures IsReadAs(lib, HeadTokens("median_over_time", ["m"]) + CallTokens("quantile_over_time", [["0.5"], ["m"]]),
                     Entry(-3, "median_over_time", ["m"], MedianOverTime(lib), false))
    ensures IsReadAs(lib, HeadTokens("range_median", ["q"]) + CallTokens("range_quantile", [["0.5"], ["q"]]),
                     Entry(-4, "range_median", ["q"], RangeMedian(lib), false))
  {
    hide IsName, IsWhole, CallTokens, HeadTokens, ParseWithArg;
    MedianWords();
    RangeWords();
    ParameterWords();
    OneParam("m");
    OneParam("q");
    HalfIsWhole(lib, "quantile_over_time", "m");
    HalfIsWhole(lib, "range_quantile", "q");
    ReadDefinition(lib, "median_over_time", ["m"], CallTokens("quantile_over_time", [["0.5"], ["m"]]), MedianOverTime(lib));
    ReadDefinition(lib, "range_median", ["q"], CallTokens("range_quantile", [["0.5"], ["q"]]), RangeMedian(lib));
  }

  lemma AliasIsRead(lib: Lib)
    requires ReadsTexts(lib)
    ensures IsReadAs(lib, HeadTokens("alias", ["q", "name"]) + AliasTokens(), Entry(-5, "alias", ["q", "name"], Alias(lib), false))
  {
    hide IsName, IsWhole, AliasTokens, HeadTokens, Alias, ParseWithArg;
    AliasWords();
    ParameterWords();
    TwoParams("q", "name");
    AliasIsWhole(lib);
    ReadDefinition(lib, "alias", ["q", "name"], AliasTokens(), Alias(lib));
  }

  /** The definitions that every query sees are what the parser makes of their
      texts. */
  lemma DefaultsAreRead(lib: Lib)
    requires ReadsTexts(lib)
    ensures |DefaultScope(lib)| == 5 && forall i | 0 <= i < 5 :: IsReadAs(lib, TextTokens()[i], DefaultScope(lib)[i])
  {
    hide IsReadAs, RuTokens, TtfTokens, AliasTokens, CallTokens, HeadTokens, Ru, Ttf, Alias, MedianOverTime, RangeMedian;
    UsageIsRead(lib);
    MediansAreRead(lib);
    AliasIsRead(lib);
  }
}
