/** The written forms of the query language: what may be spelled in several
    ways is kept, so that a form has exactly one list of tokens and one tree. */
module Forms {
  import opened Text
  import opened Syntax
  import opened Library
  import opened Scan
  import opened Operators
  import opened Grammar
  import opened Printer
  import opened RoundTrip

  /** `by (a, b)`, with or without a comma at the end; the words that join
      series may stand without a list. */
  datatype ModifierForm = NoModifier | Listed(word: string, names: seq<string>, trailing: bool) | Bare(word: string)

  datatype LimitForm = NoLimit | Limit(word: string, numeral: string)

  /** What follows the window: nothing, `:`, `:5s` as one token, or `:` and
      `5s`. The token `:]` closes a window as well. */
  datatype StepForm = NoStep | Inherited | Joined(step: string) | Apart(step: string) | Closing

  datatype WindowForm = NoWindow | Window(length: string, step: StepForm)

  datatype OffsetForm = NoOffset | Offset(word: string, isNegative: bool, length: string)

  datatype Form =
    | NumberForm(numeral: string)
    | StringForm(sum: seq<string>)
    | MetricForm(name: string, braces: bool, filters: seq<LabelFilterExpr>, trailing: bool)
    | FuncForm(name: string, args: seq<Form>, trailing: bool)
    | AggrForm(name: string, args: seq<Form>, trailing: bool, modifier: ModifierForm, isFirst: bool, limit: LimitForm)
    | ParensForm(args: seq<Form>, trailing: bool)
    | SignForm(sign: string, inner: Form)
    | RollupForm(inner: Form, window: WindowForm, offset: OffsetForm)
    | WithForm(word: string, defs: seq<DefForm>, trailing: bool, body: Form)
    | Chain(first: Form, ops: seq<OpForm>)

  datatype OpForm = OpForm(op: string, boolWord: string, group: ModifierForm, join: ModifierForm, right: Form)

  datatype DefForm = DefForm(id: int, name: string, parens: bool, params: seq<string>, trailing: bool, body: Form)

  predicate IsAtom(f: Form) { !f.RollupForm? && !f.WithForm? && !f.Chain? }

  predicate IsSingle(f: Form) { !f.Chain? && (f.RollupForm? ==> IsAtom(f.inner)) }

  // ----- tokens -----

  /** Items between commas, and one comma more if there is any item. */
  function Items(items: seq<seq<string>>, trailing: bool): seq<string>
    decreases |items|, 0
  {
    if items == [] then [] else items[0] + Follow(items[1..], trailing)
  }

  /** What follows an item. */
  function Follow(items: seq<seq<string>>, trailing: bool): seq<string>
    decreases |items|, 1
  {
    if items != [] then [","] + Items(items, trailing) else if trailing then [","] else []
  }

  function SumTokens(sum: seq<string>): seq<string> {
    if |sum| <= 1 then sum else [sum[0], "+"] + SumTokens(sum[1..])
  }

  function NameItems(names: seq<string>): seq<seq<string>> {
    if names == [] then [] else [[names[0]]] + NameItems(names[1..])
  }

  function NamesTokens(names: seq<string>, trailing: bool): seq<string> { ["("] + Items(NameItems(names), trailing) + [")"] }

  function ModifierTokens(m: ModifierForm): seq<string> {
    match m
    case NoModifier => []
    case Listed(word, names, trailing) => [word] + NamesTokens(names, trailing)
    case Bare(word) => [word]
  }

  function FilterText(f: LabelFilterExpr): string {
    match (f.isNegative, f.isRegexp)
    case (false, false) => "="
    case (true, false) => "!="
    case (false, true) => "=~"
    case (true, true) => "!~"
  }

  function FilterTokens(f: LabelFilterExpr): seq<string> {
    match f.value
    case None => [f.key]
    case Some(se) => [f.key, FilterText(f)] + SumTokens(se.tokens)
  }

  function FilterItems(fs: seq<LabelFilterExpr>): seq<seq<string>> {
    if fs == [] then [] else [FilterTokens(fs[0])] + FilterItems(fs[1..])
  }

  function BraceTokens(fs: seq<LabelFilterExpr>, trailing: bool): seq<string> {
    ["{"] + Items(FilterItems(fs), trailing) + ["}"]
  }

  function LimitFormTokens(l: LimitForm): seq<string> {
    match l
    case NoLimit => []
    case Limit(word, numeral) => [word, numeral]
  }

  function WindowTokens(w: WindowForm): seq<string> {
    match w
    case NoWindow => []
    case Window(length, step) => ["["] + (if length == "" then [] else [length]) + StepFormTokens(step)
  }

  function StepFormTokens(step: StepForm): seq<string> {
    match step
    case NoStep => ["]"]
    case Inherited => [":", "]"]
    case Joined(step) => [":" + step, "]"]
    case Apart(step) => [":", step, "]"]
    case Closing => [":]"]
  }

  function OffsetTokens(o: OffsetForm): seq<string> {
    match o
    case NoOffset => []
    case Offset(word, isNegative, length) => [word] + (if isNegative then ["-"] else []) + [length]
  }

  function Tokens(f: Form): seq<string>
    decreases f
  {
    match f
    case NumberForm(numeral) => [numeral]
    case StringForm(sum) => SumTokens(sum)
    case MetricForm(name, braces, fs, trailing) =>
      (if name == "" then [] else [name]) + (if braces then BraceTokens(fs, trailing) else [])
    case FuncForm(name, args, trailing) => [name] + (["("] + Items(TokensAll(args), trailing) + [")"])
    case AggrForm(name, args, trailing, modifier, isFirst, limit) =>
      var list := ["("] + Items(TokensAll(args), trailing) + [")"];
      [name] + (if isFirst then ModifierTokens(modifier) + list else list + ModifierTokens(modifier)) + LimitFormTokens(limit)
    case ParensForm(args, trailing) => ["("] + Items(TokensAll(args), trailing) + [")"]
    case SignForm(sign, inner) => [sign] + Tokens(inner)
    case RollupForm(inner, window, offset) => Tokens(inner) + WindowTokens(window) + OffsetTokens(offset)
    case WithForm(word, defs, trailing, body) => [word, "("] + Items(DefItems(defs), trailing) + [")"] + Tokens(body)
    case Chain(first, ops) => Tokens(first) + OpsTokens(ops)
  }

  function TokensAll(fs: seq<Form>): (r: seq<seq<string>>)
    ensures |r| == |fs|
    decreases fs
  {
    if fs == [] then [] else [Tokens(fs[0])] + TokensAll(fs[1..])
  }

  function OpTokens(o: OpForm): seq<string>
    decreases o
  {
    [o.op] + (if o.boolWord == "" then [] else [o.boolWord]) + ModifierTokens(o.group) + ModifierTokens(o.join) + Tokens(o.right)
  }

  function OpsTokens(ops: seq<OpForm>): seq<string>
    decreases ops
  {
    if ops == [] then [] else OpTokens(ops[0]) + OpsTokens(ops[1..])
  }

  function DefTokens(d: DefForm): seq<string>
    decreases d
  {
    [d.name] + (if d.parens then NamesTokens(d.params, d.trailing) else []) + (["="] + Tokens(d.body))
  }

  function DefItems(ds: seq<DefForm>): (r: seq<seq<string>>)
    ensures |r| == |ds|
    decreases ds
  {
    if ds == [] then [] else [DefTokens(ds[0])] + DefItems(ds[1..])
  }

  // ----- trees -----

  function ModifierOf(m: ModifierForm): Modifier {
    match m
    case NoModifier => NO_MODIFIER
    case Listed(word, names, _) => Modifier(Lower(word), names)
    case Bare(word) => Modifier(Lower(word), [])
  }

  function LimitOf(l: LimitForm): int {
    match l
    case NoLimit => 0
    case Limit(_, numeral) => if Atoi(numeral).Some? then Atoi(numeral).value else 0
  }

  function LengthOf(w: WindowForm): string { if w.NoWindow? then "" else w.length }

  function StepText(w: WindowForm): string {
    match w
    case Window(_, Joined(step)) => step
    case Window(_, Apart(step)) => step
    case _ => ""
  }

  function OffsetText(o: OffsetForm): string {
    match o
    case NoOffset => ""
    case Offset(_, isNegative, length) => if isNegative then "-" + length else length
  }

  function Tree(lib: Lib, f: Form): Expr
    decreases f
  {
    match f
    case NumberForm(numeral) => Number(if lib.parseFloat(numeral).Some? then lib.parseFloat(numeral).value else NaN)
    case StringForm(sum) => Str(StringExpr("", sum))
    case MetricForm(name, _, fs, _) => Metric([], (if name == "" then [] else [NameFilter(lib, name)]) + fs)
    case FuncForm(name, args, _) => Func(name, TreeAll(lib, args))
    case AggrForm(name, args, _, modifier, _, limit) =>
      Aggr(Lower(name), TreeAll(lib, args), ModifierOf(modifier), LimitOf(limit))
    case ParensForm(args, _) => Parens(TreeAll(lib, args))
    case SignForm(sign, inner) => if sign == "-" then Negated(Tree(lib, inner)) else Tree(lib, inner)
    case RollupForm(inner, window, offset) =>
      Rollup(Tree(lib, inner), LengthOf(window), OffsetText(offset), StepText(window), window.Window? && window.step.Inherited?)
    case WithForm(_, defs, _, body) => With(DefTrees(lib, defs), Tree(lib, body))
    case Chain(first, ops) => Layered(0, [Tree(lib, first)] + Rights(lib, ops), Infos(ops))
  }

  function TreeAll(lib: Lib, fs: seq<Form>): (r: seq<Expr>)
    ensures |r| == |fs|
    decreases fs
  {
    if fs == [] then [] else [Tree(lib, fs[0])] + TreeAll(lib, fs[1..])
  }

  function Rights(lib: Lib, ops: seq<OpForm>): (r: seq<Expr>)
    ensures |r| == |ops|
    decreases ops
  {
    if ops == [] then [] else [Tree(lib, ops[0].right)] + Rights(lib, ops[1..])
  }

  function InfoOf(o: OpForm): OpInfo { InfoOfWords(o.op, o.boolWord, o.group, o.join) }

  function InfoOfWords(op: string, boolWord: string, group: ModifierForm, join: ModifierForm): OpInfo {
    OpInfo(if OpOf(op).Some? then OpOf(op).value else Add, boolWord != "", ModifierOf(group), ModifierOf(join))
  }

  function Infos(ops: seq<OpForm>): (r: seq<OpInfo>)
    ensures |r| == |ops|
  {
    if ops == [] then [] else [InfoOf(ops[0])] + Infos(ops[1..])
  }

  function DefTrees(lib: Lib, ds: seq<DefForm>): (r: seq<WithArg>)
    ensures |r| == |ds|
    decreases ds
  {
    if ds == [] then [] else [WithArg(ds[0].id, ds[0].name, ds[0].params, Tree(lib, ds[0].body))] + DefTrees(lib, ds[1..])
  }

  // ----- forms that are read as meant -----

  function Next(toks: seq<string>): string { if toks == [] then "" else toks[0] }

  /** Literals and names, read up to the end and no further. */
  predicate FitsSum(sum: seq<string>, rest: seq<string>) {
    && sum != [] && (IsStringPrefix(sum[0]) || IsIdentPrefix(sum[0]))
    && (if |sum| == 1 then EndsString(rest) else ContinuesString(SumTokens(sum[1..]) + rest) && FitsSum(sum[1..], rest))
  }

  predicate FitsNames(names: seq<string>, trailing: bool) { AreIdents(names) && (trailing ==> names != []) }

  predicate FitsModifier(m: ModifierForm, k: Keyword, rest: seq<string>) {
    match m
    case NoModifier => true
    case Listed(word, names, trailing) => IsIdentPrefix(word) && KeywordOf(word) == k && FitsNames(names, trailing)
    case Bare(word) => IsIdentPrefix(word) && KeywordOf(word) == k == JoinModifier && MarkOf(Next(rest)) != LParen
  }

  predicate FitsFilter(f: LabelFilterExpr, rest: seq<string>) {
    && IsIdentPrefix(f.key)
    && match f.value
       case None => !f.isNegative && !f.isRegexp
       case Some(se) => se.s == "" && FitsSum(se.tokens, rest)
  }

  predicate FitsFilters(fs: seq<LabelFilterExpr>, trailing: bool, rest: seq<string>) {
    fs == [] || (FitsFilter(fs[0], Follow(FilterItems(fs[1..]), trailing) + rest) && FitsFilters(fs[1..], trailing, rest))
  }

  predicate FitsBraces(fs: seq<LabelFilterExpr>, trailing: bool, rest: seq<string>) {
    (trailing ==> fs != []) && FitsFilters(fs, trailing, ["}"] + rest)
  }

  /** After a bare name: the name of an aggregate must not be followed by a
      word. */
  predicate EndsName(name: string, t: string) {
    t == "" || KeywordOf(t) == OffsetWord ||
    (if IsIdentPrefix(t) then KeywordOf(name) != AggrName
     else OpOf(t).Some? || MarkOf(t) in {LBracket, RParen, Comma})
  }

  predicate FitsLimit(l: LimitForm) { l.Limit? ==> KeywordOf(l.word) == LimitWord && Atoi(l.numeral).Some? }

  predicate FitsWindow(w: WindowForm) {
    w.Window? ==>
      && (w.length == "" || IsDuration(w.length)) && (w.length == "" ==> !w.step.NoStep?)
      && (w.step.Joined? || w.step.Apart? ==> IsDuration(w.step.step))
  }

  predicate FitsOffset(o: OffsetForm) { o.Offset? ==> KeywordOf(o.word) == OffsetWord && IsDuration(o.length) }

  /** What follows an expression without suffix does not start one. */
  predicate EndsAtSuffix(rest: seq<string>) { MarkOf(Next(rest)) != LBracket && KeywordOf(Next(rest)) != OffsetWord }

  /** The parser takes the tokens of the form, before `rest`, for this form. */
  predicate Fits(lib: Lib, f: Form, rest: seq<string>)
    decreases f, 0
  {
    match f
    case NumberForm(numeral) => IsNumberStart(numeral) && lib.parseFloat(numeral).Some?
    case StringForm(sum) => FitsSum(sum, rest) && IsStringPrefix(sum[0])
    case MetricForm(name, braces, fs, trailing) =>
      && (if name == "" then braces
          else IsIdentPrefix(name) && KeywordOf(name) != NumberWord && (!braces ==> EndsName(name, Next(rest))))
      && (if braces then FitsBraces(fs, trailing, rest) else fs == [] && !trailing)
    case FuncForm(name, args, trailing) =>
      && IsIdentPrefix(name) && KeywordOf(name) !in {AggrName, NumberWord, WithWord}
      && (trailing ==> args != []) && FitsAll(lib, args, trailing, [")"] + rest)
    case AggrForm(name, args, trailing, modifier, isFirst, limit) =>
      var suffix := LimitFormTokens(limit) + rest;
      && IsIdentPrefix(name) && KeywordOf(name) == AggrName
      && FitsModifier(modifier, AggrModifier, []) && (isFirst ==> !modifier.NoModifier?) && FitsLimit(limit)
      && (limit.NoLimit? ==> KeywordOf(Next(rest)) != LimitWord)
      && (limit.NoLimit? && modifier.NoModifier? ==> KeywordOf(Next(rest)) != AggrModifier)
      && (trailing ==> args != [])
      && FitsAll(lib, args, trailing, [")"] + (if isFirst then suffix else ModifierTokens(modifier) + suffix))
    case ParensForm(args, trailing) => (trailing ==> args != []) && FitsAll(lib, args, trailing, [")"] + rest)
    case SignForm(sign, inner) => (sign == "-" || sign == "+") && FitsSingle(lib, inner, rest)
    case RollupForm(inner, window, offset) =>
      && IsAtom(inner) && Fits(lib, inner, WindowTokens(window) + OffsetTokens(offset) + rest)
      && FitsWindow(window) && FitsOffset(offset) && (window.Window? || offset.Offset?)
      && (offset.NoOffset? ==> KeywordOf(Next(rest)) != OffsetWord)
    case WithForm(word, defs, trailing, body) =>
      && KeywordOf(word) == WithWord && (trailing ==> defs != [])
      && FitsDefs(lib, defs, trailing, [")"] + Tokens(body) + rest) && !RepeatsName(DefTrees(lib, defs))
      && body.Chain? && Fits(lib, body, rest)
    case Chain(first, ops) =>
      FitsSingle(lib, first, OpsTokens(ops) + rest) && FitsOps(lib, ops, rest) && OpOf(Next(rest)).None?
  }

  predicate FitsSingle(lib: Lib, f: Form, rest: seq<string>)
    decreases f, 1
  {
    IsSingle(f) && Fits(lib, f, rest) && (IsAtom(f) ==> EndsAtSuffix(rest))
  }

  predicate FitsAll(lib: Lib, fs: seq<Form>, trailing: bool, rest: seq<string>)
    decreases fs
  {
    fs == [] ||
    (fs[0].Chain? && Fits(lib, fs[0], Follow(TokensAll(fs[1..]), trailing) + rest) && FitsAll(lib, fs[1..], trailing, rest))
  }

  /** The words between an operator and its right operand. */
  predicate FitsWords(op: string, boolWord: string, group: ModifierForm, join: ModifierForm, operand: seq<string>) {
    var groups := ModifierTokens(group) + (ModifierTokens(join) + operand);
    && OpOf(op).Some?
    && (if boolWord == "" then KeywordOf(Next(groups)) != BoolWord else KeywordOf(boolWord) == BoolWord && IsCmp(OpOf(op).value))
    && FitsModifiers(OpOf(op).value, group, join, operand)
  }

  predicate FitsModifiers(op: BinOp, group: ModifierForm, join: ModifierForm, operand: seq<string>) {
    && FitsModifier(group, GroupModifier, []) && FitsModifier(join, JoinModifier, operand)
    && (if group.NoModifier? then join.NoModifier? && KeywordOf(Next(operand)) != GroupModifier
        else if join.NoModifier? then KeywordOf(Next(operand)) != JoinModifier
        else !IsLogicalSet(op))
  }

  predicate FitsOp(o: OpForm, operand: seq<string>) { FitsWords(o.op, o.boolWord, o.group, o.join, operand) }

  predicate FitsOps(lib: Lib, ops: seq<OpForm>, rest: seq<string>)
    decreases ops
  {
    ops == [] ||
    var more := OpsTokens(ops[1..]) + rest;
    FitsOp(ops[0], Tokens(ops[0].right) + more) && FitsSingle(lib, ops[0].right, more) && FitsOps(lib, ops[1..], rest)
  }

  predicate FitsDef(lib: Lib, d: DefForm, rest: seq<string>)
    decreases d
  {
    && IsIdentPrefix(d.name) && KeywordOf(d.name) !in {AggrName, WithWord} && !lib.isRollupOrTransform(d.name)
    && (if d.parens then FitsNames(d.params, d.trailing) && !Repeats(d.params) else d.params == [] && !d.trailing)
    && d.id == |DefTokens(d)| + |rest|
    && d.body.Chain? && Fits(lib, d.body, rest)
  }

  predicate FitsDefs(lib: Lib, ds: seq<DefForm>, trailing: bool, rest: seq<string>)
    decreases ds
  {
    ds == [] ||
    (FitsDef(lib, ds[0], Follow(DefItems(ds[1..]), trailing) + rest) && FitsDefs(lib, ds[1..], trailing, rest))
  }
}
