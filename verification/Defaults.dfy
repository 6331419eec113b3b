/** The definitions that every query sees. */
module Defaults {
  import opened Text
  import opened Syntax
  import opened Library
  import opened Expansion
  import opened Hygiene
  import opened Reading
  import opened ParseShape

  /** The functions the known definitions call. */
  const CALLED: set<string> := {
    "clamp_min", "clamp_max", "smooth_exponential", "deriv_fast", "step", "quantile_over_time", "range_quantile", "label_set"}

  predicate Fine(e: Expr) { Has(WellFormed, e) && CallsOnly(e) }

  /** No WITH node, no modifier list, and calls of those functions only. */
  predicate CallsOnly(e: Expr)
    decreases e
  {
    match e
    case Func(name, args) => name in CALLED && forall i | 0 <= i < |args| :: CallsOnly(args[i])
    case Parens(args) => forall i | 0 <= i < |args| :: CallsOnly(args[i])
    case Binary(info, left, right) => info.group.args == [] && info.join.args == [] && CallsOnly(left) && CallsOnly(right)
    case Number(_) => true
    case Str(_) => true
    case Metric(_, _) => true
    case _ => false
  }

  function Selector(lib: Lib, name: string): (e: Expr)
    ensures Fine(e)
  {
    Metric([], [LabelFilterExpr("__name__", Some(StringExpr("", [lib.quote(name)])), false, false)])
  }

  function Operation(op: BinOp, left: Expr, right: Expr): (e: Expr)
    ensures Fine(left) && Fine(right) ==> Fine(e)
  {
    Binary(OpInfo(op, false, NO_MODIFIER, NO_MODIFIER), left, right)
  }

  function Calling(name: string, args: seq<Expr>): (e: Expr)
    requires name in CALLED
    ensures (forall i | 0 <= i < |args| :: Fine(args[i])) ==> Fine(e)
  {
    Func(name, args)
  }

  function Constant(r: real): (e: Expr)
    ensures Fine(e)
  {
    Number(Finite(r))
  }

  function Literal(token: string): (e: Expr)
    ensures Fine(e)
  {
    Str(StringExpr("", [token]))
  }

  function Ru(lib: Lib): (e: Expr)
    ensures Fine(e)
  {
    var freev, maxv := Selector(lib, "freev"), Selector(lib, "maxv");
    var free := Calling("clamp_min", [freev, Constant(0.0)]);
    Operation(Mul,
              Operation(Div,
                        Calling("clamp_min", [Operation(Sub, maxv, free), Constant(0.0)]),
                        Calling("clamp_min", [maxv, Constant(0.0)])),
              Constant(100.0))
  }

  function Negative(e: Expr): (r: Expr)
    ensures Fine(e) ==> Fine(r)
  {
    var be := Operation(Sub, Constant(0.0), e);
    Parens([be])
  }

  /** The free space over the speed at which it shrinks. */
  function TimeLeft(lib: Lib): (e: Expr)
    ensures Fine(e)
  {
    var freev := Selector(lib, "freev");
    var speed := Calling("clamp_max", [Calling("deriv_fast", [freev]), Constant(0.0)]);
    Operation(Div, Calling("clamp_max", [Negative(freev), Constant(0.0)]), speed)
  }

  function SmoothingFactor(): (e: Expr)
    ensures Fine(e)
  {
    Calling("clamp_max", [Operation(Div, Calling("step", []), Constant(300.0)), Constant(1.0)])
  }

  function Ttf(lib: Lib): (e: Expr)
    ensures Fine(e)
  {
    var year := Operation(Mul, Operation(Mul, Constant(365.0), Constant(24.0)), Constant(3600.0));
    Calling("smooth_exponential", [Calling("clamp_max", [TimeLeft(lib), year]), SmoothingFactor()])
  }

  function Alias(lib: Lib): (e: Expr)
    ensures Fine(e)
  {
    Calling("label_set", [Selector(lib, "q"), Literal("\"__name__\""), Selector(lib, "name")])
  }

  function MedianOverTime(lib: Lib): (e: Expr)
    ensures Fine(e)
  {
    Calling("quantile_over_time", [Constant(0.5), Selector(lib, "m")])
  }

  function RangeMedian(lib: Lib): (e: Expr)
    ensures Fine(e)
  {
    Calling("range_quantile", [Constant(0.5), Selector(lib, "q")])
  }

  predicate IsKnown(x: Entry) { x.id < 0 && !x.isArg && |x.params| > 0 && Fine(x.body) }

  function Known(id: int, name: string, params: seq<string>, body: Expr): (x: Entry)
    requires id < 0 && |params| > 0 && Fine(body)
    ensures IsKnown(x) && x.id == id
  {
    Entry(id, name, params, body, false)
  }

  /** getDefaultWithArgExprs. Their ids lie outside those of any query. */
  function DefaultScope(lib: Lib): seq<Entry> {
    var ru := Known(-1, "ru", ["freev", "maxv"], Ru(lib));
    var ttf := Known(-2, "ttf", ["freev"], Ttf(lib));
    var median := Known(-3, "median_over_time", ["m"], MedianOverTime(lib));
    var range := Known(-4, "range_median", ["q"], RangeMedian(lib));
    var alias := Known(-5, "alias", ["q", "name"], Alias(lib));
    [ru, ttf, median, range, alias]
  }

  lemma {:induction false} CallsOnlyIsHygienic(defined: set<string>, names: set<string>, ids: set<int>, e: Expr)
    requires CallsOnly(e) && defined !! CALLED
    ensures Hygienic(defined, names, ids, e)
    decreases e
  {
    match e
    case Func(_, args) => forall i | 0 <= i < |args| ensures Hygienic(defined, names, ids, args[i]) { CallsOnlyIsHygienic(defined, names, ids, args[i]); }
    case Parens(args) => forall i | 0 <= i < |args| ensures Hygienic(defined, names, ids, args[i]) { CallsOnlyIsHygienic(defined, names, ids, args[i]); }
    case Binary(_, left, right) =>
      CallsOnlyIsHygienic(defined, names, ids, left);
      CallsOnlyIsHygienic(defined, names, ids, right);
    case _ =>
  }

  lemma DefaultScopeFacts(lib: Lib)
    ensures |DefaultScope(lib)| == 5
    ensures forall i | 0 <= i < 5 :: IsKnown(DefaultScope(lib)[i]) && DefaultScope(lib)[i].id == -1 - i
  {
    hide IsKnown, Ru, Ttf, MedianOverTime, RangeMedian, Alias, Fine, Known;
  }

  /** The known definitions are fit for expansion, never replace a bare name,
      and are hygienic as long as a query redefines no function they call. */
  lemma DefaultScopeIsUsable(lib: Lib, defined: set<string>)
    ensures |DefaultScope(lib)| == 5 && ScopeWellFormed(DefaultScope(lib)) && forall hi :: Apart(Ids(DefaultScope(lib)), hi)
    ensures forall name :: KeepsName(DefaultScope(lib), name)
    ensures defined !! CALLED && (forall i | 0 <= i < 5 :: DefaultScope(lib)[i].name in defined && ToSet(DefaultScope(lib)[i].params) <= defined)
            ==> HygienicScope(defined, DefaultScope(lib))
  {
    hide DefaultScope, Has, CallsOnly;
    DefaultScopeFacts(lib);
    var scope := DefaultScope(lib);
    if defined !! CALLED && (forall i | 0 <= i < 5 :: scope[i].name in defined && ToSet(scope[i].params) <= defined) {
      forall i | 0 <= i < 5 ensures HygienicEntry(defined, scope[..i], scope[i]) {
        CallsOnlyIsHygienic(defined, Names(scope[..i]) + ToSet(scope[i].params), Ids(scope[..i]), scope[i].body);
      }
    }
  }
}
