/** What the recursive-descent parser recognises, as functions from the
    tokens that are left to a tree and the tokens left after it. */
module Grammar {
  import opened Text
  import opened Syntax
  import opened Library
  import opened Scan
  import opened Operators

  // ----- tokens -----

  /** The tokens from the current one on. After them comes end of input, or,
      if `bad`, text that is no token. */
  datatype Stream = Stream(toks: seq<string>, bad: bool)

  datatype Parsed<+T> = Parsed(v: T, rest: Stream) | Failed {
    predicate IsFailure() { Failed? }
    function PropagateFailure<U>(): Parsed<U>
      requires Failed?
    {
      Failed
    }
    function Extract(): (T, Stream)
      requires Parsed?
    {
      (v, rest)
    }
  }

  /** The current token; an empty one means end of input. */
  function Tok(s: Stream): string { if s.toks == [] then "" else s.toks[0] }

  /** lexer.Next: the next token. End of input repeats. */
  function Advance(s: Stream): (r: Parsed<string>)
    ensures r.Parsed? ==> r.v == Tok(r.rest) && r.rest.bad == s.bad
    ensures r.Parsed? && s.toks != [] ==> |r.rest.toks| == |s.toks| - 1
    ensures r.Parsed? && s.toks == [] ==> r.rest == s
  {
    if s.toks == [] then if s.bad then Failed else Parsed("", s)
    else if |s.toks| == 1 && s.bad then Failed
    else Parsed(if |s.toks| == 1 then "" else s.toks[1], Stream(s.toks[1..], s.bad))
  }

  /** Punctuation the parser tests for. */
  datatype Mark =
    | Eof | LParen | RParen | LBrace | RBrace | LBracket | RBracket | Comma | Plus | Minus
    | Equal | NotEqual | Matches | NotMatches | Other

  function MarkOf(tok: string): Mark {
    if tok == "" then Eof
    else if tok == "(" then LParen
    else if tok == ")" then RParen
    else if tok == "{" then LBrace
    else if tok == "}" then RBrace
    else if tok == "[" then LBracket
    else if tok == "]" then RBracket
    else if tok == "," then Comma
    else if tok == "+" then Plus
    else if tok == "-" then Minus
    else if tok == "=" then Equal
    else if tok == "!=" then NotEqual
    else if tok == "=~" then Matches
    else if tok == "!~" then NotMatches
    else Other
  }

  lemma EmptyIsEof()
    ensures MarkOf("") == Eof
  {
  }

  predicate IsMark(s: Stream, m: Mark) { MarkOf(Tok(s)) == m }

  /** Words with a meaning of their own; case does not matter. */
  datatype Keyword =
    | WithWord | OffsetWord | BoolWord | LimitWord | GroupModifier | JoinModifier | AggrModifier | AggrName
    | NumberWord | NoKeyword

  const AGGR_FUNCS: set<string> := {
    "sum", "min", "max", "avg", "stddev", "stdvar", "count", "count_values", "bottomk", "topk", "quantile", "group",
    "median", "limitk", "distinct", "sum2", "geomean", "histogram", "topk_min", "topk_max", "topk_avg", "topk_median",
    "bottomk_min", "bottomk_max", "bottomk_avg", "bottomk_median", "any", "outliersk", "mode"}

  function KeywordOf(tok: string): Keyword {
    var t := Lower(tok);
    if t == "with" then WithWord
    else if t == "offset" then OffsetWord
    else if t == "bool" then BoolWord
    else if t == "limit" then LimitWord
    else if t == "on" || t == "ignoring" then GroupModifier
    else if t == "group_left" || t == "group_right" then JoinModifier
    else if t == "by" || t == "without" then AggrModifier
    else if t == "inf" || t == "nan" then NumberWord
    else if t in AGGR_FUNCS then AggrName
    else NoKeyword
  }

  predicate IsWord(s: Stream, k: Keyword) { KeywordOf(Tok(s)) == k }

  predicate IsNumberStart(tok: string) { IsNumberPrefix(tok) || KeywordOf(tok) == NumberWord }

  predicate IsDuration(tok: string) { DurationLength(tok, false) == |tok| }

  predicate StartsWithColon(tok: string) { tok != "" && tok[0] == ':' }

  // ----- expressions -----

  /** parseExpr */
  function ParseExpr(lib: Lib, s: Stream): (r: Parsed<Expr>)
    ensures r.Parsed? ==> |r.rest.toks| < |s.toks|
    decreases |s.toks|, 9
  {
    var (e, s1) :- ParseSingle(lib, s);
    ParseOperations(lib, e, s1)
  }

  /** The operators and operands after `left`. */
  function ParseOperations(lib: Lib, left: Expr, s: Stream): (r: Parsed<Expr>)
    ensures r.Parsed? ==> |r.rest.toks| <= |s.toks|
    decreases |s.toks|, 0
  {
    match OpOf(Tok(s))
    case None => Parsed(left, s)
    case Some(op) =>
      if s.toks == [] then Failed
      else
        var (_, s1) :- Advance(s);
        var (info, s2) :- ParseOpModifiers(op, s1);
        var (right, s3) :- ParseSingle(lib, s2);
        ParseOperations(lib, Balance(left, info, right), s3)
  }

  /** What may stand between an operator and its right operand. */
  function ParseOpModifiers(op: BinOp, s: Stream): (r: Parsed<OpInfo>)
    ensures r.Parsed? ==> |r.rest.toks| <= |s.toks| && r.v.op == op
  {
    var (isBool, s1) :- ParseBool(op, s);
    if !IsWord(s1, GroupModifier) then Parsed(OpInfo(op, isBool, NO_MODIFIER, NO_MODIFIER), s1)
    else
      var (group, s2) :- ParseModifier(s1);
      if !IsWord(s2, JoinModifier) then Parsed(OpInfo(op, isBool, group, NO_MODIFIER), s2)
      else if IsLogicalSet(op) then Failed
      else
        var (join, s3) :- ParseModifier(s2);
        Parsed(OpInfo(op, isBool, group, join), s3)
  }

  function ParseBool(op: BinOp, s: Stream): (r: Parsed<bool>)
    ensures r.Parsed? ==> |r.rest.toks| <= |s.toks|
  {
    if !IsWord(s, BoolWord) then Parsed(false, s)
    else if !IsCmp(op) then Failed
    else
      var (_, s1) :- Advance(s);
      Parsed(true, s1)
  }

  /** parseSingleExpr */
  function ParseSingle(lib: Lib, s: Stream): (r: Parsed<Expr>)
    ensures r.Parsed? ==> |r.rest.toks| < |s.toks|
    decreases |s.toks|, 8
  {
    if IsWord(s, WithWord) && Advance(s).Parsed? && MarkOf(Advance(s).v) == LParen then ParseWith(lib, s)
    else
      var (e, s1) :- ParseUnsuffixed(lib, s);
      if IsMark(s1, LBracket) || IsWord(s1, OffsetWord) then ParseRollup(e, s1) else Parsed(e, s1)
  }

  /** parseSingleExprWithoutRollupSuffix */
  function ParseUnsuffixed(lib: Lib, s: Stream): (r: Parsed<Expr>)
    ensures r.Parsed? ==> |r.rest.toks| < |s.toks|
    decreases |s.toks|, 7
  {
    if s.toks == [] then Failed
    else if IsNumberStart(Tok(s)) then ParseNumber(lib, s)
    else if IsStringPrefix(Tok(s)) then
      var (tokens, s1) :- ParseString(s, []);
      Parsed(Str(StringExpr("", tokens)), s1)
    else if IsIdentPrefix(Tok(s)) then ParseIdentExpr(lib, s)
    else
      match MarkOf(Tok(s))
      case LParen =>
        var (items, s1) :- ParseList(lib, s, []);
        Parsed(Parens(items), s1)
      case LBrace => ParseMetric(lib, s)
      case Minus =>
        var (_, s1) :- Advance(s);
        var (e, s2) :- ParseSingle(lib, s1);
        Parsed(Parens([Binary(OpInfo(Sub, false, NO_MODIFIER, NO_MODIFIER), Number(Finite(0.0)), e)]), s2)
      case Plus =>
        var (_, s1) :- Advance(s);
        ParseSingle(lib, s1)
      case _ => Failed
  }

  function ParseNumber(lib: Lib, s: Stream): (r: Parsed<Expr>)
    requires s.toks != []
    ensures r.Parsed? ==> |r.rest.toks| < |s.toks|
  {
    match lib.parseFloat(Tok(s))
    case None => Failed
    case Some(n) =>
      var (_, s1) :- Advance(s);
      Parsed(Number(n), s1)
  }

  /** parseStringExpr: literals and names joined by `+`. A `+` that is followed
      by anything else, or by a call or a selector, is left to the caller. */
  function ParseString(s: Stream, tokens: seq<string>): (r: Parsed<seq<string>>)
    ensures r.Parsed? ==> |r.rest.toks| < |s.toks|
    decreases |s.toks|
  {
    if s.toks == [] || !(IsStringPrefix(Tok(s)) || IsIdentPrefix(Tok(s))) then Failed
    else
      var tokens' := tokens + [Tok(s)];
      var (t1, s1) :- Advance(s);
      if MarkOf(t1) != Plus || s1.toks == [] then Parsed(tokens', s1)
      else
        var (t2, s2) :- Advance(s1);
        if IsStringPrefix(t2) then ParseString(s2, tokens')
        else if !IsIdentPrefix(t2) then Parsed(tokens', s1)
        else
          var (t3, s3) :- Advance(s2);
          if MarkOf(t3) == LParen || MarkOf(t3) == LBrace then Parsed(tokens', s1) else ParseString(s2, tokens')
  }

  /** parseParensExpr and parseArgListExpr: expressions between parens. The
      current token is the paren or the comma before the next item. */
  function ParseList(lib: Lib, s: Stream, items: seq<Expr>): (r: Parsed<seq<Expr>>)
    requires s.toks != []
    ensures r.Parsed? ==> |r.rest.toks| < |s.toks|
    decreases |s.toks|, 5
  {
    var (t1, s1) :- Advance(s);
    if MarkOf(t1) == RParen then CloseList(s1, items)
    else
      var (e, s2) :- ParseExpr(lib, s1);
      match MarkOf(Tok(s2))
      case Comma => if s2.toks == [] then Failed else ParseList(lib, s2, items + [e])
      case RParen => CloseList(s2, items + [e])
      case _ => Failed
  }

  function CloseList<T>(s: Stream, items: seq<T>): (r: Parsed<seq<T>>)
    ensures r.Parsed? ==> |r.rest.toks| <= |s.toks| && r.v == items
  {
    var (_, s1) :- Advance(s);
    Parsed(items, s1)
  }

  /** parseArgListExpr */
  function ParseArgs(lib: Lib, s: Stream): (r: Parsed<seq<Expr>>)
    ensures r.Parsed? ==> |r.rest.toks| < |s.toks|
    decreases |s.toks|, 6
  {
    if s.toks == [] || !IsMark(s, LParen) then Failed else ParseList(lib, s, [])
  }

  // ----- names, calls and selectors -----

  /** parseIdentExpr: what the name starts is decided by the token after it. */
  function ParseIdentExpr(lib: Lib, s: Stream): (r: Parsed<Expr>)
    requires s.toks != []
    ensures r.Parsed? ==> |r.rest.toks| < |s.toks|
    decreases |s.toks|, 6
  {
    var (t, _) :- Advance(s);
    if t == "" || KeywordOf(t) == OffsetWord then ParseMetric(lib, s)
    else if IsIdentPrefix(t) then if IsWord(s, AggrName) then ParseAggr(lib, s) else ParseMetric(lib, s)
    else if OpOf(t).Some? then ParseMetric(lib, s)
    else
      match MarkOf(t)
      case LParen => if IsWord(s, AggrName) then ParseAggr(lib, s) else ParseFunc(lib, s)
      case LBrace | LBracket | RParen | Comma => ParseMetric(lib, s)
      case _ => Failed
  }

  function ParseFunc(lib: Lib, s: Stream): (r: Parsed<Expr>)
    requires s.toks != []
    ensures r.Parsed? ==> |r.rest.toks| < |s.toks|
    decreases |s.toks|, 5
  {
    if !IsIdentPrefix(Tok(s)) then Failed
    else
      var (_, s1) :- Advance(s);
      var (args, s2) :- ParseArgs(lib, s1);
      Parsed(Func(Tok(s), args), s2)
  }

  /** parseAggrFuncExpr: the modifier may come before or after the arguments. */
  function ParseAggr(lib: Lib, s: Stream): (r: Parsed<Expr>)
    requires s.toks != []
    ensures r.Parsed? ==> |r.rest.toks| < |s.toks|
    decreases |s.toks|, 5
  {
    if !IsWord(s, AggrName) then Failed
    else
      var name := Lower(Tok(s));
      var (t, s1) :- Advance(s);
      if IsIdentPrefix(t) then
        if KeywordOf(t) != AggrModifier then Failed
        else
          var (before, s2) :- ParseModifier(s1);
          var (args, s3) :- ParseArgs(lib, s2);
          ParseAggrSuffix(name, args, before, s3)
      else
        var (args, s2) :- ParseArgs(lib, s1);
        ParseAggrSuffix(name, args, NO_MODIFIER, s2)
  }

  function ParseAggrSuffix(name: string, args: seq<Expr>, before: Modifier, s: Stream): (r: Parsed<Expr>)
    ensures r.Parsed? ==> |r.rest.toks| <= |s.toks|
  {
    var (modifier, s1) :- if before.op == "" && IsWord(s, AggrModifier) then ParseModifier(s) else Parsed(before, s);
    var (limit, s2) :- ParseLimit(s1);
    Parsed(Aggr(name, args, modifier, limit), s2)
  }

  function ParseLimit(s: Stream): (r: Parsed<int>)
    ensures r.Parsed? ==> |r.rest.toks| <= |s.toks|
  {
    if !IsWord(s, LimitWord) then Parsed(0, s)
    else
      var (t, s1) :- Advance(s);
      match Atoi(t)
      case None => Failed
      case Some(limit) =>
        var (_, s2) :- Advance(s1);
        Parsed(limit, s2)
  }

  /** parseModifierExpr */
  function ParseModifier(s: Stream): (r: Parsed<Modifier>)
    ensures r.Parsed? ==> |r.rest.toks| < |s.toks|
  {
    if s.toks == [] || !IsIdentPrefix(Tok(s)) then Failed
    else
      var op := Lower(Tok(s));
      var (t, s1) :- Advance(s);
      if KeywordOf(op) == JoinModifier && MarkOf(t) != LParen then Parsed(Modifier(op, []), s1)
      else
        var (args, s2) :- ParseIdents(s1);
        Parsed(Modifier(op, args), s2)
  }

  function ParseIdents(s: Stream): (r: Parsed<seq<string>>)
    ensures r.Parsed? ==> |r.rest.toks| < |s.toks|
  {
    if s.toks == [] || !IsMark(s, LParen) then Failed else ParseIdentList(s, [])
  }

  /** parseIdentList, from a paren or a comma on. */
  function ParseIdentList(s: Stream, idents: seq<string>): (r: Parsed<seq<string>>)
    requires s.toks != []
    ensures r.Parsed? ==> |r.rest.toks| < |s.toks|
    decreases |s.toks|
  {
    var (t1, s1) :- Advance(s);
    if MarkOf(t1) == RParen then CloseList(s1, idents)
    else if !IsIdentPrefix(t1) then Failed
    else
      var (t2, s2) :- Advance(s1);
      match MarkOf(t2)
      case Comma => if s2.toks == [] then Failed else ParseIdentList(s2, idents + [t1])
      case RParen => CloseList(s2, idents + [t1])
      case _ => Failed
  }

  /** parseMetricExpr */
  function ParseMetric(lib: Lib, s: Stream): (r: Parsed<Expr>)
    requires s.toks != []
    ensures r.Parsed? ==> |r.rest.toks| < |s.toks|
  {
    if IsIdentPrefix(Tok(s)) then
      var name := LabelFilterExpr("__name__", Some(StringExpr("", [lib.quote(Tok(s))])), false, false);
      var (t, s1) :- Advance(s);
      if MarkOf(t) != LBrace || s1.toks == [] then Parsed(Metric([], [name]), s1)
      else
        var (filters, s2) :- ParseLabelFilters(s1, []);
        Parsed(Metric([], [name] + filters), s2)
    else if !IsMark(s, LBrace) then Failed
    else
      var (filters, s1) :- ParseLabelFilters(s, []);
      Parsed(Metric([], filters), s1)
  }

  /** parseLabelFilters, from a brace or a comma on. */
  function ParseLabelFilters(s: Stream, filters: seq<LabelFilterExpr>): (r: Parsed<seq<LabelFilterExpr>>)
    requires s.toks != []
    ensures r.Parsed? ==> |r.rest.toks| < |s.toks|
    decreases |s.toks|
  {
    var (t1, s1) :- Advance(s);
    if MarkOf(t1) == RBrace then CloseList(s1, filters)
    else
      var (f, s2) :- ParseLabelFilter(s1);
      match MarkOf(Tok(s2))
      case Comma => if s2.toks == [] then Failed else ParseLabelFilters(s2, filters + [f])
      case RBrace => CloseList(s2, filters + [f])
      case _ => Failed
  }

  /** parseLabelFilterExpr */
  function ParseLabelFilter(s: Stream): (r: Parsed<LabelFilterExpr>)
    ensures r.Parsed? ==> |r.rest.toks| < |s.toks|
  {
    if s.toks == [] || !IsIdentPrefix(Tok(s)) then Failed
    else
      var key := Tok(s);
      var (t, s1) :- Advance(s);
      match MarkOf(t)
      case Equal => ParseFilterValue(key, false, false, s1)
      case NotEqual => ParseFilterValue(key, true, false, s1)
      case Matches => ParseFilterValue(key, false, true, s1)
      case NotMatches => ParseFilterValue(key, true, true, s1)
      case Comma | RBrace => Parsed(LabelFilterExpr(key, None, false, false), s1)
      case _ => Failed
  }

  function ParseFilterValue(key: string, isNegative: bool, isRegexp: bool, s: Stream): (r: Parsed<LabelFilterExpr>)
    ensures r.Parsed? ==> |r.rest.toks| <= |s.toks|
  {
    var (_, s1) :- Advance(s);
    var (tokens, s2) :- ParseString(s1, []);
    Parsed(LabelFilterExpr(key, Some(StringExpr("", tokens)), isNegative, isRegexp), s2)
  }

  // ----- WITH -----

  predicate Repeats(names: seq<string>) { exists i, j | 0 <= i < j < |names| :: names[i] == names[j] }

  predicate RepeatsName(was: seq<WithArg>) { exists i, j | 0 <= i < j < |was| :: was[i].name == was[j].name }

  /** parseWithExpr */
  function ParseWith(lib: Lib, s: Stream): (r: Parsed<Expr>)
    ensures r.Parsed? ==> |r.rest.toks| < |s.toks|
    decreases |s.toks|, 7
  {
    if s.toks == [] || !IsWord(s, WithWord) then Failed
    else
      var (t, s1) :- Advance(s);
      if MarkOf(t) != LParen || s1.toks == [] then Failed
      else
        var (was, s2) :- ParseWithArgs(lib, s1, []);
        if RepeatsName(was) then Failed
        else
          var (_, s3) :- Advance(s2);
          var (body, s4) :- ParseExpr(lib, s3);
          Parsed(With(was, body), s4)
  }

  /** The definitions of a WITH list from a paren or a comma on, up to the
      closing paren. */
  function ParseWithArgs(lib: Lib, s: Stream, was: seq<WithArg>): (r: Parsed<seq<WithArg>>)
    requires s.toks != []
    ensures r.Parsed? ==> |r.rest.toks| < |s.toks|
    decreases |s.toks|, 5
  {
    var (t, s1) :- Advance(s);
    if MarkOf(t) == RParen then Parsed(was, s1)
    else
      var (wa, s2) :- ParseWithArg(lib, s1);
      match MarkOf(Tok(s2))
      case Comma => if s2.toks == [] then Failed else ParseWithArgs(lib, s2, was + [wa])
      case RParen => Parsed(was + [wa], s2)
      case _ => Failed
  }

  function ParseParams(s: Stream): (r: Parsed<seq<string>>)
    ensures r.Parsed? ==> |r.rest.toks| <= |s.toks|
  {
    if IsMark(s, LParen) then ParseIdents(s) else Parsed([], s)
  }

  /** parseWithArgExpr. The number of tokens left tells the definitions of a
      query apart. */
  function ParseWithArg(lib: Lib, s: Stream): (r: Parsed<WithArg>)
    ensures r.Parsed? ==> |r.rest.toks| < |s.toks|
    decreases |s.toks|, 4
  {
    var name := Tok(s);
    if s.toks == [] || !IsIdentPrefix(name) then Failed
    else if IsWord(s, AggrName) || lib.isRollupOrTransform(name) || IsWord(s, WithWord) then Failed
    else
      var (_, s1) :- Advance(s);
      var (params, s2) :- ParseParams(s1);
      if Repeats(params) then Failed
      else if !IsMark(s2, Equal) then Failed
      else
        var (_, s3) :- Advance(s2);
        var (body, s4) :- ParseExpr(lib, s3);
        Parsed(WithArg(|s.toks|, name, params, body), s4)
  }

  // ----- rollups -----

  /** parseRollupExpr, from the bracket or the word `offset` on. */
  function ParseRollup(e: Expr, s: Stream): (r: Parsed<Expr>)
    ensures r.Parsed? ==> |r.rest.toks| <= |s.toks|
  {
    if !IsMark(s, LBracket) then
      var (offset, s1) :- ParseOffset(s);
      Parsed(Rollup(e, "", offset, "", false), s1)
    else
      var ((window, step, inheritStep), s1) :- ParseWindowAndStep(s);
      if !IsWord(s1, OffsetWord) then Parsed(Rollup(e, window, "", step, inheritStep), s1)
      else
        var (offset, s2) :- ParseOffset(s1);
        Parsed(Rollup(e, window, offset, step, inheritStep), s2)
  }

  function ParseOffset(s: Stream): (r: Parsed<string>)
    ensures r.Parsed? ==> |r.rest.toks| <= |s.toks|
  {
    if !IsWord(s, OffsetWord) then Failed
    else
      var (t, s1) :- Advance(s);
      ParseDuration(t, s1)
  }

  /** parseDuration, when `t` is taken for the current token of `s`. */
  function ParseDuration(t: string, s: Stream): (r: Parsed<string>)
    ensures r.Parsed? ==> |r.rest.toks| <= |s.toks|
  {
    if MarkOf(t) == Minus then
      var (d, s1) :- Advance(s);
      if !IsDuration(d) then Failed
      else
        var (_, s2) :- Advance(s1);
        Parsed("-" + d, s2)
    else if !IsDuration(t) then Failed
    else
      var (_, s1) :- Advance(s);
      Parsed(t, s1)
  }

  function ParsePositiveDuration(t: string, s: Stream): (r: Parsed<string>)
    ensures r.Parsed? ==> |r.rest.toks| <= |s.toks|
  {
    var (d, s1) :- ParseDuration(t, s);
    if d != "" && d[0] == '-' then Failed else Parsed(d, s1)
  }

  /** parseWindowAndStep: the window, the step, and whether the step is
      inherited. A token like `:5s` holds the colon and the step. */
  function ParseWindowAndStep(s: Stream): (r: Parsed<(string, string, bool)>)
    ensures r.Parsed? ==> |r.rest.toks| <= |s.toks|
  {
    if !IsMark(s, LBracket) then Failed
    else
      var (t, s1) :- Advance(s);
      var (window, s2) :- if StartsWithColon(t) then Parsed("", s1) else ParsePositiveDuration(t, s1);
      ParseColon(window, s2)
  }

  /** What follows the window. */
  function ParseColon(window: string, s: Stream): (r: Parsed<(string, string, bool)>)
    ensures r.Parsed? ==> |r.rest.toks| <= |s.toks|
  {
    if !StartsWithColon(Tok(s)) then CloseWindow(window, "", false, Tok(s), s)
    else
      var t := Tok(s)[1..];
      if t != "" then ParseStep(window, false, t, s)
      else
        var (t1, s1) :- Advance(s);
        ParseStep(window, MarkOf(t1) == RBracket, t1, s1)
  }

  function ParseStep(window: string, inheritStep: bool, t: string, s: Stream): (r: Parsed<(string, string, bool)>)
    ensures r.Parsed? ==> |r.rest.toks| <= |s.toks|
  {
    if MarkOf(t) == RBracket then CloseWindow(window, "", inheritStep, t, s)
    else
      var (step, s1) :- ParsePositiveDuration(t, s);
      CloseWindow(window, step, inheritStep, Tok(s1), s1)
  }

  function CloseWindow(window: string, step: string, inheritStep: bool, t: string, s: Stream): (r: Parsed<(string, string, bool)>)
    ensures r.Parsed? ==> |r.rest.toks| <= |s.toks|
  {
    if MarkOf(t) != RBracket then Failed
    else
      var (_, s1) :- Advance(s);
      Parsed((window, step, inheritStep), s1)
  }

  /** A whole query: an expression and nothing after it. */
  function ParseQuery(lib: Lib, s: Stream): Option<Expr> {
    match ParseExpr(lib, s)
    case Failed => None
    case Parsed(e, rest) => if Tok(rest) == "" then Some(e) else None
  }
}
