/** What every parse tree looks like: it meets the precondition of expansion,
    its definitions are told apart by their ids, and what the parser rejects
    does not occur in it. */
module ParseShape {
  import opened Text
  import opened Syntax
  import opened Library
  import opened Operators
  import opened Grammar
  import opened Expansion
  import opened Hygiene

  /** The word bool stands only at comparisons, a join modifier only after a
      group modifier and not at set operators. */
  predicate LegalOp(info: OpInfo) {
    && (info.isBool ==> IsCmp(info.op))
    && (info.join != NO_MODIFIER ==> info.group != NO_MODIFIER && !IsLogicalSet(info.op))
  }

  /** Definitions do not take the names of aggregates and do not repeat their
      parameters. */
  predicate LegalDef(wa: WithArg) { KeywordOf(wa.name) !in {AggrName, WithWord} && !Repeats(wa.params) }

  /** Ids lie between 1 and `hi` and decrease along every path from the root
      through a WITH list to what is written after it; operators and
      definitions are legal, and no list defines a name twice. */
  predicate Descending(hi: int, e: Expr)
    decreases e
  {
    match e
    case Func(_, args) => DescendingAll(hi, args)
    case Aggr(_, args, _, _) => DescendingAll(hi, args)
    case Parens(args) => DescendingAll(hi, args)
    case Binary(info, left, right) => LegalOp(info) && Descending(hi, left) && Descending(hi, right)
    case Rollup(inner, _, _, _, _) => Descending(hi, inner)
    case With(was, body) => !RepeatsName(was) && DescendingDefs(hi, was) && Descending(Below(hi, was), body)
    case _ => true
  }

  predicate DescendingAll(hi: int, es: seq<Expr>)
    decreases es
  {
    forall i | 0 <= i < |es| :: Descending(hi, es[i])
  }

  predicate DescendingDefs(hi: int, was: seq<WithArg>)
    decreases was
  {
    was == [] ||
    (&& 1 <= was[0].id <= hi && LegalDef(was[0]) && Descending(was[0].id - 1, was[0].body)
     && DescendingDefs(was[0].id - 1, was[1..]))
  }

  function Below(hi: int, was: seq<WithArg>): int { if was == [] then hi else was[|was| - 1].id - 1 }

  predicate Sound(hi: int, e: Expr) { Has(WellFormed, e) && Descending(hi, e) }

  predicate SoundAll(hi: int, es: seq<Expr>) { HasAll(WellFormed, es) && DescendingAll(hi, es) }

  lemma {:induction false} DescendingWeakens(lo: int, hi: int, e: Expr)
    requires lo <= hi && Descending(lo, e)
    ensures Descending(hi, e)
    decreases e
  {
    match e
    case Func(_, args) => forall i | 0 <= i < |args| ensures Descending(hi, args[i]) { DescendingWeakens(lo, hi, args[i]); }
    case Aggr(_, args, _, _) => forall i | 0 <= i < |args| ensures Descending(hi, args[i]) { DescendingWeakens(lo, hi, args[i]); }
    case Parens(args) => forall i | 0 <= i < |args| ensures Descending(hi, args[i]) { DescendingWeakens(lo, hi, args[i]); }
    case Binary(_, left, right) => DescendingWeakens(lo, hi, left); DescendingWeakens(lo, hi, right);
    case Rollup(inner, _, _, _, _) => DescendingWeakens(lo, hi, inner);
    case With(was, body) => if was == [] { DescendingWeakens(lo, hi, body); }
    case _ =>
  }

  lemma {:induction false} BalanceIsSound(hi: int, left: Expr, info: OpInfo, right: Expr)
    requires Sound(hi, left) && Sound(hi, right) && LegalOp(info)
    ensures Sound(hi, Balance(left, info, right))
    decreases left
  {
    if left.Binary? { BalanceIsSound(hi, left.right, info, right); }
  }

  lemma {:induction false} DefsAppend(hi: int, was: seq<WithArg>, wa: WithArg)
    requires DescendingDefs(hi, was) && 1 <= wa.id <= Below(hi, was) && LegalDef(wa) && Descending(wa.id - 1, wa.body)
    ensures DescendingDefs(hi, was + [wa])
    decreases |was|
  {
    if was != [] {
      assert (was + [wa])[1..] == was[1..] + [wa];
      DefsAppend(was[0].id - 1, was[1..], wa);
    }
  }

  // ----- the parse functions -----

  lemma {:induction false} FiltersSound(s: Stream, filters: seq<LabelFilterExpr>)
    requires s.toks != [] && RawWellFormed(filters)
    ensures var r := ParseLabelFilters(s, filters); r.Parsed? ==> RawWellFormed(r.v)
    decreases |s.toks|
  {
    hide MarkOf, IsMark;
    var r := Advance(s);
    if r.Parsed? && MarkOf(r.v) != RBrace {
      var f := ParseLabelFilter(r.rest);
      if f.Parsed? && MarkOf(Tok(f.rest)) == Comma && f.rest.toks != [] {
        FiltersSound(f.rest, filters + [f.v]);
      }
    }
  }

  lemma MetricSound(lib: Lib, s: Stream, hi: int)
    requires s.toks != []
    ensures var r := ParseMetric(lib, s); r.Parsed? ==> Sound(hi, r.v)
  {
    hide MarkOf, ParseLabelFilters;
    FiltersSound(s, []);
    var r := Advance(s);
    if r.Parsed? && r.rest.toks != [] { FiltersSound(r.rest, []); }
  }

  lemma {:induction false} ExprSound(lib: Lib, s: Stream, hi: int)
    requires |s.toks| <= hi
    ensures var r := ParseExpr(lib, s); r.Parsed? ==> Sound(hi, r.v)
    decreases |s.toks|, 9
  {
    hide ParseSingle, ParseOperations;
    SingleSound(lib, s, hi);
    var r := ParseSingle(lib, s);
    if r.Parsed? { OperationsSound(lib, r.v, r.rest, hi); }
  }

  lemma ModifierHasName(s: Stream)
    ensures ParseModifier(s).Parsed? ==> ParseModifier(s).v != NO_MODIFIER
  {
    hide ParseIdents, MarkOf, KeywordOf;
  }

  lemma OpModifiersAreLegal(op: BinOp, s: Stream)
    ensures ParseOpModifiers(op, s).Parsed? ==> LegalOp(ParseOpModifiers(op, s).v)
  {
    hide ParseModifier, KeywordOf;
    var b := ParseBool(op, s);
    if b.Parsed? { ModifierHasName(b.rest); }
  }

  lemma {:induction false} OperationsSound(lib: Lib, left: Expr, s: Stream, hi: int)
    requires |s.toks| <= hi && Sound(hi, left)
    ensures var r := ParseOperations(lib, left, s); r.Parsed? ==> Sound(hi, r.v)
    decreases |s.toks|, 0
  {
    hide ParseSingle, ParseOpModifiers, OpOf, Sound, LegalOp;
    var op := OpOf(Tok(s));
    if op.Some? && s.toks != [] && Advance(s).Parsed? {
      var m := ParseOpModifiers(op.value, Advance(s).rest);
      if m.Parsed? {
        var r := ParseSingle(lib, m.rest);
        if r.Parsed? {
          SingleSound(lib, m.rest, hi);
          OpModifiersAreLegal(op.value, Advance(s).rest);
          BalanceIsSound(hi, left, m.v, r.v);
          OperationsSound(lib, Balance(left, m.v, r.v), r.rest, hi);
        }
      }
    }
  }

  lemma {:induction false} SingleSound(lib: Lib, s: Stream, hi: int)
    requires |s.toks| <= hi
    ensures var r := ParseSingle(lib, s); r.Parsed? ==> Sound(hi, r.v)
    decreases |s.toks|, 8
  {
    hide ParseUnsuffixed, ParseWith, ParseRollup, MarkOf, KeywordOf;
    WithSound(lib, s, hi);
    UnsuffixedSound(lib, s, hi);
    var r := ParseUnsuffixed(lib, s);
    if r.Parsed? { RollupSound(r.v, r.rest, hi); }
  }

  lemma RollupSound(e: Expr, s: Stream, hi: int)
    requires Sound(hi, e)
    ensures var r := ParseRollup(e, s); r.Parsed? ==> Sound(hi, r.v)
  {
    hide MarkOf, KeywordOf, ParseOffset, ParseWindowAndStep;
  }

  lemma {:induction false} UnsuffixedSound(lib: Lib, s: Stream, hi: int)
    requires |s.toks| <= hi
    ensures var r := ParseUnsuffixed(lib, s); r.Parsed? ==> Sound(hi, r.v)
    decreases |s.toks|, 7
  {
    hide ParseIdentExpr, ParseList, ParseMetric, ParseSingle, ParseString, MarkOf, KeywordOf;
    if s.toks != [] {
      IdentExprSound(lib, s, hi);
      ListSound(lib, s, [], hi);
      MetricSound(lib, s, hi);
      var r := Advance(s);
      if r.Parsed? {
        SingleSound(lib, r.rest, hi);
        var e := ParseSingle(lib, r.rest);
        if e.Parsed? { NegationSound(e.v, hi); }
      }
    }
  }

  lemma NegationSound(e: Expr, hi: int)
    requires Sound(hi, e)
    ensures Sound(hi, Parens([Binary(OpInfo(Sub, false, NO_MODIFIER, NO_MODIFIER), Number(Finite(0.0)), e)]))
  {
    assert Sound(hi, Binary(OpInfo(Sub, false, NO_MODIFIER, NO_MODIFIER), Number(Finite(0.0)), e));
  }

  lemma {:induction false} ListSound(lib: Lib, s: Stream, items: seq<Expr>, hi: int)
    requires s.toks != [] && |s.toks| <= hi && SoundAll(hi, items)
    ensures var r := ParseList(lib, s, items); r.Parsed? ==> SoundAll(hi, r.v)
    decreases |s.toks|, 5
  {
    hide ParseExpr, MarkOf, Has, Descending;
    var a := Advance(s);
    if a.Parsed? && MarkOf(a.v) != RParen {
      ExprSound(lib, a.rest, hi);
      var r := ParseExpr(lib, a.rest);
      if r.Parsed? {
        assert SoundAll(hi, items + [r.v]);
        if r.rest.toks != [] { ListSound(lib, r.rest, items + [r.v], hi); }
      }
    }
  }

  lemma {:induction false} ArgsSound(lib: Lib, s: Stream, hi: int)
    requires |s.toks| <= hi
    ensures var r := ParseArgs(lib, s); r.Parsed? ==> SoundAll(hi, r.v)
    decreases |s.toks|, 6
  {
    if s.toks != [] { ListSound(lib, s, [], hi); }
  }

  lemma {:induction false} IdentExprSound(lib: Lib, s: Stream, hi: int)
    requires s.toks != [] && |s.toks| <= hi
    ensures var r := ParseIdentExpr(lib, s); r.Parsed? ==> Sound(hi, r.v)
    decreases |s.toks|, 6
  {
    hide ParseMetric, ParseArgs, ParseAggrSuffix, ParseModifier, MarkOf, KeywordOf, OpOf;
    MetricSound(lib, s, hi);
    var r := Advance(s);
    if r.Parsed? {
      ArgsSound(lib, r.rest, hi);
      var args := ParseArgs(lib, r.rest);
      if args.Parsed? { AggrSuffixSound(Lower(Tok(s)), args.v, NO_MODIFIER, args.rest, hi); }
      var m := ParseModifier(r.rest);
      if m.Parsed? {
        ArgsSound(lib, m.rest, hi);
        var args := ParseArgs(lib, m.rest);
        if args.Parsed? { AggrSuffixSound(Lower(Tok(s)), args.v, m.v, args.rest, hi); }
      }
    }
  }

  lemma AggrSuffixSound(name: string, args: seq<Expr>, before: Modifier, s: Stream, hi: int)
    requires SoundAll(hi, args)
    ensures var r := ParseAggrSuffix(name, args, before, s); r.Parsed? ==> Sound(hi, r.v)
  {
    hide ParseModifier, ParseLimit, KeywordOf;
  }

  lemma {:induction false} WithSound(lib: Lib, s: Stream, hi: int)
    requires |s.toks| <= hi
    ensures var r := ParseWith(lib, s); r.Parsed? ==> Sound(hi, r.v)
    decreases |s.toks|, 7
  {
    hide ParseWithArgs, ParseExpr, MarkOf, KeywordOf;
    var r := Advance(s);
    if r.Parsed? && s.toks != [] && r.rest.toks != [] {
      WithArgsSound(lib, r.rest, [], |r.rest.toks|);
      var was := ParseWithArgs(lib, r.rest, []);
      if was.Parsed? {
        var a := Advance(was.rest);
        if a.Parsed? {
          ExprSound(lib, a.rest, Below(|r.rest.toks|, was.v));
          var body := ParseExpr(lib, a.rest);
          if body.Parsed? && !RepeatsName(was.v) {
            assert Descending(|r.rest.toks|, With(was.v, body.v));
            DescendingWeakens(|r.rest.toks|, hi, With(was.v, body.v));
          }
        }
      }
    }
  }

  lemma {:induction false} WithArgsSound(lib: Lib, s: Stream, was: seq<WithArg>, hi: int)
    requires s.toks != [] && HasDefs(WellFormed, was) && DescendingDefs(hi, was) && |s.toks| <= Below(hi, was)
    ensures var r := ParseWithArgs(lib, s, was);
            r.Parsed? ==> HasDefs(WellFormed, r.v) && DescendingDefs(hi, r.v) && |r.rest.toks| <= Below(hi, r.v)
    decreases |s.toks|, 5
  {
    hide ParseWithArg, MarkOf, Has, Descending;
    var a := Advance(s);
    if a.Parsed? && MarkOf(a.v) != RParen {
      WithArgSound(lib, a.rest);
      var r := ParseWithArg(lib, a.rest);
      if r.Parsed? {
        DefsAppend(hi, was, r.v);
        if r.rest.toks != [] { WithArgsSound(lib, r.rest, was + [r.v], hi); }
      }
    }
  }

  lemma {:induction false} WithArgSound(lib: Lib, s: Stream)
    ensures var r := ParseWithArg(lib, s);
            r.Parsed? ==>
              && r.v.id == |s.toks| >= 1 && |r.rest.toks| < r.v.id && LegalDef(r.v)
              && Has(WellFormed, r.v.body) && Descending(r.v.id - 1, r.v.body)
    decreases |s.toks|, 4
  {
    hide ParseExpr, ParseParams, MarkOf, KeywordOf, Has, Descending;
    if s.toks != [] && Advance(s).Parsed? {
      var a := Advance(s);
      var params := ParseParams(a.rest);
      if params.Parsed? {
        var b := Advance(params.rest);
        if b.Parsed? { ExprSound(lib, b.rest, |s.toks| - 1); }
      }
    }
  }

  /** Every query that parses is fit for expansion. */
  lemma QueryIsSound(lib: Lib, s: Stream)
    ensures var r := ParseQuery(lib, s); r.Some? ==> Sound(|s.toks|, r.value)
  {
    ExprSound(lib, s, |s.toks|);
  }

  // ----- hygiene of parsed queries -----

  /** Every function called is visible or defined nowhere, and modifier lists
      are empty: the part of Hygienic that depends on what is written. */
  predicate Visible(defined: set<string>, names: set<string>, e: Expr)
    decreases e
  {
    match e
    case Func(name, args) => (name in names || name !in defined) && VisibleAll(defined, names, args)
    case Aggr(_, args, modifier, _) => modifier.args == [] && VisibleAll(defined, names, args)
    case Parens(args) => VisibleAll(defined, names, args)
    case Binary(info, left, right) =>
      info.group.args == [] && info.join.args == [] && Visible(defined, names, left) && Visible(defined, names, right)
    case Rollup(inner, _, _, _, _) => Visible(defined, names, inner)
    case With(was, body) => VisibleDefs(defined, names, was) && Visible(defined, names + DefNames(was), body)
    case _ => true
  }

  predicate VisibleAll(defined: set<string>, names: set<string>, es: seq<Expr>)
    decreases es
  {
    forall i | 0 <= i < |es| :: Visible(defined, names, es[i])
  }

  predicate VisibleDefs(defined: set<string>, names: set<string>, was: seq<WithArg>)
    decreases was
  {
    was == [] ||
    (&& was[0].name in defined && ToSet(was[0].params) <= defined
     && Visible(defined, names + ToSet(was[0].params), was[0].body)
     && VisibleDefs(defined, names + {was[0].name}, was[1..]))
  }

  predicate Apart(ids: set<int>, hi: int) { forall id <- ids :: id < 1 || id > hi }

  lemma {:induction false} VisibleIsHygienic(defined: set<string>, names: set<string>, ids: set<int>, hi: int, e: Expr)
    requires Visible(defined, names, e) && Descending(hi, e) && Apart(ids, hi)
    ensures Hygienic(defined, names, ids, e)
    decreases e
  {
    match e
    case Func(_, args) => forall i | 0 <= i < |args| ensures Hygienic(defined, names, ids, args[i]) { VisibleIsHygienic(defined, names, ids, hi, args[i]); }
    case Aggr(_, args, _, _) => forall i | 0 <= i < |args| ensures Hygienic(defined, names, ids, args[i]) { VisibleIsHygienic(defined, names, ids, hi, args[i]); }
    case Parens(args) => forall i | 0 <= i < |args| ensures Hygienic(defined, names, ids, args[i]) { VisibleIsHygienic(defined, names, ids, hi, args[i]); }
    case Binary(_, left, right) =>
      VisibleIsHygienic(defined, names, ids, hi, left);
      VisibleIsHygienic(defined, names, ids, hi, right);
    case Rollup(inner, _, _, _, _) => VisibleIsHygienic(defined, names, ids, hi, inner);
    case With(was, body) =>
      VisibleDefsAreHygienic(defined, names, ids, hi, was);
      VisibleIsHygienic(defined, names + DefNames(was), ids + DefIds(was), Below(hi, was), body);
    case _ =>
  }

  lemma {:induction false} VisibleDefsAreHygienic(defined: set<string>, names: set<string>, ids: set<int>, hi: int, was: seq<WithArg>)
    requires VisibleDefs(defined, names, was) && DescendingDefs(hi, was) && Apart(ids, hi)
    ensures HygienicDefs(defined, names, ids, was)
    ensures Apart(ids + DefIds(was), Below(hi, was)) && Below(hi, was) <= hi
    decreases was
  {
    if was != [] {
      var id := was[0].id;
      VisibleIsHygienic(defined, names + ToSet(was[0].params), ids, id - 1, was[0].body);
      VisibleDefsAreHygienic(defined, names + {was[0].name}, ids + {id}, id - 1, was[1..]);
      assert ids + DefIds(was) == ids + {id} + DefIds(was[1..]);
    }
  }
}
