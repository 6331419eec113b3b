/** The recursive-descent parser over the lexer object. Every method reads
    what the function of Grammar with the same name says, leaves the lexer
    just past it, and never steps back over the start of the text. */
module Parser {
  import opened Text
  import opened Syntax
  import opened Library
  import opened Scan
  import opened Operators
  import opened Lexing
  import G = Grammar

  /** The tokens from position `p` of a pass on. */
  ghost function RestAt(full: G.Stream, p: nat): G.Stream {
    G.Stream(if 1 <= p <= |full.toks| then full.toks[p - 1..] else [], full.bad)
  }

  lemma AdvanceAt(full: G.Stream, p: nat)
    requires p >= 1
    ensures G.Tok(RestAt(full, p)) == if p <= |full.toks| then full.toks[p - 1] else ""
    ensures G.Advance(RestAt(full, p)) ==
            if p + 1 <= |full.toks| || !full.bad then G.Parsed(G.Tok(RestAt(full, p + 1)), RestAt(full, p + 1)) else G.Failed
  {
    if p + 1 <= |full.toks| { assert full.toks[p - 1..][1..] == full.toks[p..]; }
  }

  class Parser {
    const lib: Lib
    const lex: Lexer

    constructor (lib: Lib, lex: Lexer)
      ensures this.lib == lib && this.lex == lex
    {
      this.lib, this.lex := lib, lex;
    }

    /** The lexer stands on a token of the pass; it has failed only if no
        token can follow. */
    ghost predicate Ready()
      reads lex
    {
      lex.Synced() && lex.pos >= 1 && !lex.extra && (lex.err ==> !lex.Within(lex.pos + 1))
    }

    ghost function Rest(): G.Stream
      reads lex
    {
      RestAt(lex.Full(), lex.pos)
    }

    /** A method read what the grammar says, or failed where it fails. */
    ghost predicate Reads<T>(r: Option<T>, spec: G.Parsed<T>)
      reads lex
    {
      (r.Some? <==> spec.Parsed?) && (r.Some? ==> Ready() && !lex.err && r.value == spec.v && Rest() == spec.rest)
    }

    /** lexer.Next */
    method Next() returns (ok: bool)
      requires Ready()
      modifies lex
      ensures ok <==> G.Advance(old(Rest())).Parsed?
      ensures ok ==> Ready() && !lex.err && G.Advance(old(Rest())) == G.Parsed(lex.token, Rest())
    {
      ok := NextFrom();
    }

    /** lexer.Next, with the position that a step back leads to. */
    method NextFrom() returns (ok: bool)
      requires Ready()
      modifies lex
      ensures ok <==> G.Advance(old(Rest())).Parsed?
      ensures ok ==> Ready() && !lex.err && G.Advance(old(Rest())) == G.Parsed(lex.token, Rest())
      ensures ok ==> lex.pos == old(lex.pos) + 1 && lex.floor == old(lex.floor) && lex.floor < lex.pos
      ensures ok ==> Rest() == RestAt(lex.Full(), lex.pos)
    {
      hide Lex;
      AdvanceAt(lex.Full(), lex.pos);
      AdvanceAt(lex.Full(), lex.pos + 1);
      ok := lex.Next();
    }

    /** After the first Next, the whole text is left. */
    lemma Started()
      requires lex.Synced() && lex.pos == 1 && !lex.extra && !lex.err
      ensures Ready() && Rest() == lex.Full()
    {
      hide Lex;
      if lex.Full().toks != [] { assert lex.Full().toks[0..] == lex.Full().toks; }
    }

    /** The current token is the first of what is left. */
    lemma Current()
      requires Ready()
      ensures lex.token == G.Tok(Rest()) && (Rest().toks == [] ==> lex.token == "")
    {
      hide Lex;
      AdvanceAt(lex.Full(), lex.pos);
    }

    /** lexer.Prev after a Next that did not fail. */
    method Back()
      requires Ready() && lex.floor < lex.pos && lex.pos >= 2 && !lex.err
      modifies lex
      ensures Ready() && lex.pos == old(lex.pos) - 1 && lex.floor == old(lex.floor) && !lex.err
      ensures Rest() == RestAt(lex.Full(), old(lex.pos) - 1)
    {
      hide Lex;
      lex.Prev();
    }

    /** Past the closing token of a list. */
    method CloseList<T>(items: seq<T>) returns (r: Option<seq<T>>)
      requires Ready()
      modifies lex
      ensures Reads(r, G.CloseList(old(Rest()), items))
    {
      hide Ready, Rest;
      var ok := Next();
      return if ok then Some(items) else None;
    }

    // ----- lists of names, modifiers -----

    method ParseIdentList() returns (r: Option<seq<string>>)
      requires Ready()
      modifies lex
      ensures Reads(r, G.ParseIdents(old(Rest())))
    {
      hide G.MarkOf, G.Advance, G.CloseList, Ready, Rest, RestAt, IsIdentPrefix;
      Current();
      if G.MarkOf(lex.token) != G.LParen {
        return None;
      }
      G.EmptyIsEof();
      var idents := [];
      ghost var goal := G.ParseIdents(Rest());
      while true
        invariant Ready() && Rest().toks != [] && G.ParseIdentList(Rest(), idents) == goal
        decreases |Rest().toks|
      {
        var ok := Next();
        if !ok {
          return None;
        }
        if G.MarkOf(lex.token) == G.RParen {
          break;
        }
        if !IsIdentPrefix(lex.token) {
          return None;
        }
        idents := idents + [lex.token];
        ok := Next();
        if !ok {
          return None;
        }
        if G.MarkOf(lex.token) == G.Comma {
          continue;
        }
        if G.MarkOf(lex.token) == G.RParen {
          break;
        }
        return None;
      }
      r := CloseList(idents);
    }

    method ParseModifier() returns (r: Option<Modifier>)
      requires Ready()
      modifies lex
      ensures Reads(r, G.ParseModifier(old(Rest())))
    {
      hide G.MarkOf, G.KeywordOf, G.ParseIdents, Ready, Rest;
      Current();
      if !IsIdentPrefix(lex.token) {
        return None;
      }
      var op := Lower(lex.token);
      var ok := Next();
      if !ok {
        return None;
      }
      if G.KeywordOf(op) == G.JoinModifier && G.MarkOf(lex.token) != G.LParen {
        return Some(Modifier(op, []));
      }
      var args := ParseIdentList();
      return if args.Some? then Some(Modifier(op, args.value)) else None;
    }

    // ----- strings and selectors -----

    method ParseString() returns (r: Option<seq<string>>)
      requires Ready()
      modifies lex
      ensures Reads(r, G.ParseString(old(Rest()), []))
    {
      hide G.MarkOf, Ready, Rest, IsStringPrefix, IsIdentPrefix;
      G.EmptyIsEof();
      EmptyStartsNothing();
      var tokens := [];
      ghost var goal := G.ParseString(Rest(), []);
      while true
        invariant Ready() && G.ParseString(Rest(), tokens) == goal
        decreases |Rest().toks|
      {
        Current();
        if !IsStringPrefix(lex.token) && !IsIdentPrefix(lex.token) {
          return None;
        }
        tokens := tokens + [lex.token];
        var ok := NextFrom();
        if !ok {
          return None;
        }
        if G.MarkOf(lex.token) != G.Plus {
          return Some(tokens);
        }
        ghost var p := lex.pos;
        ok := NextFrom();
        if !ok {
          return None;
        }
        if IsStringPrefix(lex.token) {
          continue;
        }
        if !IsIdentPrefix(lex.token) {
          StepBack(p);
          return Some(tokens);
        }
        ok := NextFrom();
        if !ok {
          return None;
        }
        if G.MarkOf(lex.token) == G.LParen || G.MarkOf(lex.token) == G.LBrace {
          StepBack(p + 1);
          StepBack(p);
          return Some(tokens);
        }
        StepBack(p + 1);
      }
    }

    /** lexer.Prev, back to position `p`. */
    method StepBack(ghost p: nat)
      requires Ready() && lex.floor <= p && lex.pos == p + 1 && p >= 1 && !lex.err
      modifies lex
      ensures Ready() && lex.pos == p && lex.floor == old(lex.floor) && !lex.err && Rest() == RestAt(lex.Full(), p)
    {
      Back();
    }

    lemma EmptyStartsNothing()
      ensures !IsStringPrefix("") && !IsIdentPrefix("") && !G.IsNumberStart("") && G.KeywordOf("") == G.NoKeyword
    {
    }

    method ParseLabelFilter() returns (r: Option<LabelFilterExpr>)
      requires Ready()
      modifies lex
      ensures Reads(r, G.ParseLabelFilter(old(Rest())))
    {
      hide G.MarkOf, G.Advance, G.ParseString, Ready, Rest, RestAt, IsIdentPrefix, IsStringPrefix;
      EmptyStartsNothing();
      Current();
      if !IsIdentPrefix(lex.token) {
        return None;
      }
      var key := lex.token;
      var ok := Next();
      if !ok {
        return None;
      }
      var isNegative, isRegexp := false, false;
      match G.MarkOf(lex.token) {
        case Equal =>
        case NotEqual => isNegative := true;
        case Matches => isRegexp := true;
        case NotMatches => isNegative, isRegexp := true, true;
        case Comma | RBrace => return Some(LabelFilterExpr(key, None, false, false));
        case _ => return None;
      }
      ok := Next();
      if !ok {
        return None;
      }
      var tokens := ParseString();
      return if tokens.Some? then Some(LabelFilterExpr(key, Some(StringExpr("", tokens.value)), isNegative, isRegexp)) else None;
    }

    method ParseLabelFilters() returns (r: Option<seq<LabelFilterExpr>>)
      requires Ready() && Rest().toks != [] && G.MarkOf(G.Tok(Rest())) == G.LBrace
      modifies lex
      ensures Reads(r, G.ParseLabelFilters(old(Rest()), []))
    {
      hide G.MarkOf, G.Advance, G.Tok, G.CloseList, G.ParseLabelFilter, Ready, Rest, RestAt;
      G.EmptyIsEof();
      var filters := [];
      ghost var goal := G.ParseLabelFilters(Rest(), []);
      while true
        invariant Ready() && Rest().toks != [] && G.ParseLabelFilters(Rest(), filters) == goal
        decreases |Rest().toks|
      {
        var ok := Next();
        if !ok {
          return None;
        }
        if G.MarkOf(lex.token) == G.RBrace {
          break;
        }
        var f := ParseLabelFilter();
        if f.None? {
          return None;
        }
        filters := filters + [f.value];
        Current();
        if G.MarkOf(lex.token) == G.Comma {
          continue;
        }
        if G.MarkOf(lex.token) == G.RBrace {
          break;
        }
        return None;
      }
      r := CloseList(filters);
    }

    method ParseMetric() returns (r: Option<Expr>)
      requires Ready() && Rest().toks != []
      modifies lex
      ensures Reads(r, G.ParseMetric(lib, old(Rest())))
    {
      hide G.MarkOf, G.ParseLabelFilters, Ready, Rest;
      G.EmptyIsEof();
      Current();
      var name := [];
      if IsIdentPrefix(lex.token) {
        name := [LabelFilterExpr("__name__", Some(StringExpr("", [lib.quote(lex.token)])), false, false)];
        var ok := Next();
        if !ok {
          return None;
        }
        if G.MarkOf(lex.token) != G.LBrace {
          return Some(Metric([], name));
        }
      }
      if G.MarkOf(lex.token) != G.LBrace {
        return None;
      }
      var filters := ParseLabelFilters();
      if filters.None? {
        return None;
      }
      assert name == [] ==> name + filters.value == filters.value;
      return Some(Metric([], name + filters.value));
    }

    // ----- rollups -----

    method ParseDuration(ghost t: string, ghost s: G.Stream) returns (r: Option<string>)
      requires Overridden(t, s)
      modifies lex
      ensures Reads(r, G.ParseDuration(t, s))
    {
      hide G.MarkOf, G.IsDuration, Ready, Rest, Overridden;
      OverriddenToken(t, s);
      var isNegative := false;
      if G.MarkOf(lex.token) == G.Minus {
        isNegative := true;
        var ok := NextAfter(t, s);
        if !ok {
          return None;
        }
      }
      var d := lex.token;
      if !G.IsDuration(d) {
        return None;
      }
      if isNegative {
        var ok := Next();
        return if ok then Some("-" + d) else None;
      }
      var ok := NextAfter(t, s);
      return if ok then Some(d) else None;
    }

    /** The lexer stands before `s`, with `t` for its current token; the
        parser may have cut the colon off the token of the pass. */
    ghost predicate Overridden(t: string, s: G.Stream)
      reads lex
    {
      && lex.Valid() && lex.pos >= 1 && !lex.extra && lex.token == t && s == Rest() && lex.floor <= lex.pos + 1
      && (lex.floor <= lex.pos ==> t == lex.At(lex.pos)) && (lex.err ==> !lex.Within(lex.pos + 1))
    }

    lemma OverriddenToken(t: string, s: G.Stream)
      requires Overridden(t, s)
      ensures lex.token == t
    {
    }

    lemma ReadyIsOverridden()
      requires Ready()
      ensures Overridden(lex.token, Rest()) && lex.token == G.Tok(Rest())
    {
      Current();
    }

    method NextAfter(ghost t: string, ghost s: G.Stream) returns (ok: bool)
      requires Overridden(t, s)
      modifies lex
      ensures ok <==> G.Advance(s).Parsed?
      ensures ok ==> Ready() && !lex.err && G.Advance(s) == G.Parsed(lex.token, Rest())
    {
      hide Lex;
      AdvanceAt(lex.Full(), lex.pos);
      AdvanceAt(lex.Full(), lex.pos + 1);
      ok := lex.Next();
    }

    method ParsePositiveDuration(ghost t: string, ghost s: G.Stream) returns (r: Option<string>)
      requires Overridden(t, s)
      modifies lex
      ensures Reads(r, G.ParsePositiveDuration(t, s))
    {
      hide G.ParseDuration, Ready, Rest, Overridden;
      var d := ParseDuration(t, s);
      return if d.None? || (d.value != "" && d.value[0] == '-') then None else d;
    }

    method ParseOffset() returns (r: Option<string>)
      requires Ready()
      modifies lex
      ensures Reads(r, G.ParseOffset(old(Rest())))
    {
      hide G.KeywordOf, G.ParseDuration, Ready, Rest, Overridden;
      Current();
      if G.KeywordOf(lex.token) != G.OffsetWord {
        return None;
      }
      var ok := Next();
      if !ok {
        return None;
      }
      ReadyIsOverridden();
      r := ParseDuration(lex.token, Rest());
    }

    /** The parser cuts the colon off the current token. */
    method CutColon() returns (ghost t: string, ghost s: G.Stream)
      requires Ready() && G.StartsWithColon(lex.token)
      modifies lex
      ensures t == old(lex.token)[1..] && s == old(Rest()) && Overridden(t, s)
    {
      hide Lex, RestAt, lex.At, lex.Within;
      t, s := lex.token[1..], Rest();
      lex.token := lex.token[1..];
      lex.floor := lex.pos + 1;
    }

    method ParseWindowAndStep() returns (r: Option<(string, string, bool)>)
      requires Ready()
      modifies lex
      ensures Reads(r, G.ParseWindowAndStep(old(Rest())))
    {
      hide G.MarkOf, G.StartsWithColon, G.ParseColon, G.ParsePositiveDuration, Ready, Rest, Overridden;
      Current();
      if G.MarkOf(lex.token) != G.LBracket {
        return None;
      }
      var ok := Next();
      if !ok {
        return None;
      }
      var window := "";
      if !G.StartsWithColon(lex.token) {
        ReadyIsOverridden();
        var d := ParsePositiveDuration(lex.token, Rest());
        if d.None? {
          return None;
        }
        window := d.value;
      }
      r := ParseColon(window);
    }

    method ParseColon(window: string) returns (r: Option<(string, string, bool)>)
      requires Ready()
      modifies lex
      ensures Reads(r, G.ParseColon(window, old(Rest())))
    {
      hide G.MarkOf, G.StartsWithColon, G.ParsePositiveDuration, Ready, Rest, Overridden;
      ghost var goal := G.ParseColon(window, Rest());
      ReadyIsOverridden();
      var step, inheritStep := "", false;
      ghost var t, s := lex.token, Rest();
      if G.StartsWithColon(lex.token) {
        t, s := CutColon();
        OverriddenToken(t, s);
        if lex.token == "" {
          var ok := NextAfter(t, s);
          if !ok {
            return None;
          }
          ReadyIsOverridden();
          t, s := lex.token, Rest();
          inheritStep := G.MarkOf(lex.token) == G.RBracket;
        }
        assert goal == G.ParseStep(window, inheritStep, t, s);
        OverriddenToken(t, s);
        if G.MarkOf(lex.token) != G.RBracket {
          var d := ParsePositiveDuration(t, s);
          if d.None? {
            return None;
          }
          step := d.value;
          ReadyIsOverridden();
          t, s := lex.token, Rest();
        }
      }
      assert goal == G.CloseWindow(window, step, inheritStep, t, s);
      OverriddenToken(t, s);
      if G.MarkOf(lex.token) != G.RBracket {
        return None;
      }
      var ok := NextAfter(t, s);
      return if ok then Some((window, step, inheritStep)) else None;
    }

    method ParseRollup(e: Expr) returns (r: Option<Expr>)
      requires Ready()
      modifies lex
      ensures Reads(r, G.ParseRollup(e, old(Rest())))
    {
      hide G.MarkOf, G.KeywordOf, G.ParseWindowAndStep, G.ParseOffset, Ready, Rest;
      Current();
      var window, step, inheritStep := "", "", false;
      if G.MarkOf(lex.token) == G.LBracket {
        var ws := ParseWindowAndStep();
        if ws.None? {
          return None;
        }
        window, step, inheritStep := ws.value.0, ws.value.1, ws.value.2;
        Current();
        if G.KeywordOf(lex.token) != G.OffsetWord {
          return Some(Rollup(e, window, "", step, inheritStep));
        }
      }
      var offset := ParseOffset();
      return if offset.Some? then Some(Rollup(e, window, offset.value, step, inheritStep)) else None;
    }

    // ----- expressions -----

    method ParseNumber() returns (r: Option<Expr>)
      requires Ready() && Rest().toks != [] && G.IsNumberStart(lex.token)
      modifies lex
      ensures Reads(r, G.ParseNumber(lib, old(Rest())))
    {
      hide G.KeywordOf, Ready, Rest;
      Current();
      var n := lib.parseFloat(lex.token);
      if n.None? {
        return None;
      }
      var ok := Next();
      return if ok then Some(Number(n.value)) else None;
    }

    method ParseBool(op: BinOp) returns (r: Option<bool>)
      requires Ready() && !lex.err
      modifies lex
      ensures Reads(r, G.ParseBool(op, old(Rest())))
    {
      hide G.KeywordOf, Ready, Rest, IsCmp;
      Current();
      if G.KeywordOf(lex.token) != G.BoolWord {
        return Some(false);
      }
      if !IsCmp(op) {
        return None;
      }
      var ok := Next();
      return if ok then Some(true) else None;
    }

    method ParseOpModifiers(op: BinOp) returns (r: Option<OpInfo>)
      requires Ready() && !lex.err
      modifies lex
      ensures Reads(r, G.ParseOpModifiers(op, old(Rest())))
    {
      hide G.KeywordOf, G.ParseBool, G.ParseModifier, Ready, Rest, IsLogicalSet;
      var isBool := ParseBool(op);
      if isBool.None? {
        return None;
      }
      Current();
      if G.KeywordOf(lex.token) != G.GroupModifier {
        return Some(OpInfo(op, isBool.value, NO_MODIFIER, NO_MODIFIER));
      }
      var group := ParseModifier();
      if group.None? {
        return None;
      }
      Current();
      if G.KeywordOf(lex.token) != G.JoinModifier {
        return Some(OpInfo(op, isBool.value, group.value, NO_MODIFIER));
      }
      if IsLogicalSet(op) {
        return None;
      }
      var join := ParseModifier();
      return if join.Some? then Some(OpInfo(op, isBool.value, group.value, join.value)) else None;
    }

    method ParseExpr() returns (r: Option<Expr>)
      requires Ready() && !lex.err
      modifies lex
      ensures Reads(r, G.ParseExpr(lib, old(Rest())))
      decreases |Rest().toks|, 9
    {
      hide G.ParseSingle, G.ParseOpModifiers, Ready, Rest, Balance;
      ghost var start := |Rest().toks|;
      ghost var goal := G.ParseExpr(lib, Rest());
      r := ParseSingle();
      if r.None? {
        return;
      }
      var e := r.value;
      EmptyIsNoOp();
      while true
        invariant Ready() && !lex.err && |Rest().toks| < start && G.ParseOperations(lib, e, Rest()) == goal
        decreases |Rest().toks|
      {
        Current();
        var op := OpOf(lex.token);
        if op.None? {
          return Some(e);
        }
        var ok := Next();
        if !ok {
          return None;
        }
        var info := ParseOpModifiers(op.value);
        if info.None? {
          return None;
        }
        var right := ParseSingle();
        if right.None? {
          return None;
        }
        e := Balance(e, info.value, right.value);
      }
    }

    lemma EmptyIsNoOp()
      ensures OpOf("") == None
    {
    }

    /** lexer.Next, and lexer.Prev whatever Next said. */
    method Peek() returns (ok: bool, tok: string)
      requires Ready() && !lex.err
      modifies lex
      ensures Ready() && Rest() == old(Rest()) && lex.token == old(lex.token)
      ensures ok <==> G.Advance(old(Rest())).Parsed?
      ensures ok ==> tok == G.Advance(old(Rest())).v && !lex.err
    {
      hide Lex, RestAt;
      AdvanceAt(lex.Full(), lex.pos);
      AdvanceAt(lex.Full(), lex.pos + 1);
      ok := lex.Next();
      tok := lex.token;
      lex.Prev();
    }

    method ParseSingle() returns (r: Option<Expr>)
      requires Ready() && !lex.err
      modifies lex
      ensures Reads(r, G.ParseSingle(lib, old(Rest())))
      decreases |Rest().toks|, 8
    {
      hide G.KeywordOf, G.MarkOf, G.ParseWith, G.ParseUnsuffixed, G.ParseRollup, Ready, Rest;
      Current();
      if G.KeywordOf(lex.token) == G.WithWord {
        var ok, nextToken := Peek();
        if ok && G.MarkOf(nextToken) == G.LParen {
          r := ParseWith();
          return;
        }
      }
      r := ParseUnsuffixed();
      if r.None? {
        return;
      }
      Current();
      if G.MarkOf(lex.token) != G.LBracket && G.KeywordOf(lex.token) != G.OffsetWord {
        return;
      }
      r := ParseRollup(r.value);
    }

    method ParseUnsuffixed() returns (r: Option<Expr>)
      requires Ready()
      modifies lex
      ensures Reads(r, G.ParseUnsuffixed(lib, old(Rest())))
      decreases |Rest().toks|, 7
    {
      hide G.KeywordOf, G.MarkOf, G.IsNumberStart, G.ParseNumber, G.ParseString, G.ParseIdentExpr, G.ParseList;
      hide G.ParseMetric, G.ParseSingle, IsStringPrefix, IsIdentPrefix, Ready, Rest;
      Current();
      EmptyStartsNothing();
      G.EmptyIsEof();
      if G.IsNumberStart(lex.token) {
        r := ParseNumber();
        return;
      }
      if IsStringPrefix(lex.token) {
        var tokens := ParseString();
        return if tokens.Some? then Some(Str(StringExpr("", tokens.value))) else None;
      }
      if IsIdentPrefix(lex.token) {
        r := ParseIdentExpr();
        return;
      }
      match G.MarkOf(lex.token) {
        case LParen =>
          var items := ParseParens();
          return if items.Some? then Some(Parens(items.value)) else None;
        case LBrace =>
          r := ParseMetric();
        case Minus =>
          var ok := Next();
          if !ok {
            return None;
          }
          r := ParseSingle();
          if r.Some? {
            r := Some(Parens([Binary(OpInfo(Sub, false, NO_MODIFIER, NO_MODIFIER), Number(Finite(0.0)), r.value)]));
          }
        case Plus =>
          var ok := Next();
          if !ok {
            return None;
          }
          r := ParseSingle();
        case _ =>
          return None;
      }
    }

    method ParseParens() returns (r: Option<seq<Expr>>)
      requires Ready() && Rest().toks != [] && G.MarkOf(lex.token) == G.LParen
      modifies lex
      ensures Reads(r, G.ParseList(lib, old(Rest()), []))
      decreases |Rest().toks|, 5
    {
      hide G.MarkOf, G.Advance, G.CloseList, G.ParseExpr, Ready, Rest, RestAt;
      G.EmptyIsEof();
      ghost var start := |Rest().toks|;
      ghost var goal := G.ParseList(lib, Rest(), []);
      var items := [];
      while true
        invariant Ready() && 0 < |Rest().toks| <= start && G.ParseList(lib, Rest(), items) == goal
        decreases |Rest().toks|
      {
        var ok := Next();
        if !ok {
          return None;
        }
        if G.MarkOf(lex.token) == G.RParen {
          break;
        }
        var e := ParseExpr();
        if e.None? {
          return None;
        }
        items := items + [e.value];
        Current();
        if G.MarkOf(lex.token) == G.Comma {
          continue;
        }
        if G.MarkOf(lex.token) == G.RParen {
          break;
        }
        return None;
      }
      r := CloseList(items);
    }

    method ParseArgs() returns (r: Option<seq<Expr>>)
      requires Ready()
      modifies lex
      ensures Reads(r, G.ParseArgs(lib, old(Rest())))
      decreases |Rest().toks|, 6
    {
      hide G.MarkOf, G.Advance, G.CloseList, G.ParseExpr, Ready, Rest, RestAt;
      Current();
      if G.MarkOf(lex.token) != G.LParen {
        return None;
      }
      G.EmptyIsEof();
      ghost var start := |Rest().toks|;
      ghost var goal := G.ParseList(lib, Rest(), []);
      var args := [];
      while true
        invariant Ready() && 0 < |Rest().toks| <= start && G.ParseList(lib, Rest(), args) == goal
        decreases |Rest().toks|
      {
        var ok := Next();
        if !ok {
          return None;
        }
        if G.MarkOf(lex.token) == G.RParen {
          break;
        }
        var e := ParseExpr();
        if e.None? {
          return None;
        }
        args := args + [e.value];
        Current();
        match G.MarkOf(lex.token) {
          case Comma => continue;
          case RParen => break;
          case _ => return None;
        }
      }
      r := CloseList(args);
    }

    // ----- names and calls -----

    method ParseIdentExpr() returns (r: Option<Expr>)
      requires Ready() && Rest().toks != []
      modifies lex
      ensures Reads(r, G.ParseIdentExpr(lib, old(Rest())))
      decreases |Rest().toks|, 6
    {
      hide G.KeywordOf, G.MarkOf, G.ParseMetric, G.ParseAggr, G.ParseFunc, OpOf, IsIdentPrefix, Ready, Rest, RestAt;
      ghost var p := lex.pos;
      ghost var s := Rest();
      Current();
      AtPosition();
      var ok := NextFrom();
      if !ok {
        return None;
      }
      var t := lex.token;
      if t == "" || G.KeywordOf(t) == G.OffsetWord {
        StepBack(p);
        r := ParseMetric();
        return;
      }
      if IsIdentPrefix(t) {
        StepBack(p);
        Current();
        if G.KeywordOf(lex.token) == G.AggrName {
          r := ParseAggr();
        } else {
          r := ParseMetric();
        }
        return;
      }
      if OpOf(t).Some? {
        StepBack(p);
        r := ParseMetric();
        return;
      }
      match G.MarkOf(t) {
        case LParen =>
          StepBack(p);
          Current();
          if G.KeywordOf(lex.token) == G.AggrName {
            r := ParseAggr();
          } else {
            r := ParseFunc();
          }
        case LBrace | LBracket | RParen | Comma =>
          StepBack(p);
          r := ParseMetric();
        case _ =>
          return None;
      }
    }

    lemma AtPosition()
      requires Ready()
      ensures lex.pos >= 1 && lex.floor <= lex.pos && Rest() == RestAt(lex.Full(), lex.pos)
    {
      hide Lex;
    }

    method ParseFunc() returns (r: Option<Expr>)
      requires Ready() && Rest().toks != []
      modifies lex
      ensures Reads(r, G.ParseFunc(lib, old(Rest())))
      decreases |Rest().toks|, 5
    {
      hide G.MarkOf, G.ParseArgs, IsIdentPrefix, Ready, Rest;
      Current();
      if !IsIdentPrefix(lex.token) {
        return None;
      }
      var name := lex.token;
      var ok := Next();
      if !ok {
        return None;
      }
      var args := ParseArgs();
      return if args.Some? then Some(Func(name, args.value)) else None;
    }

    method ParseAggr() returns (r: Option<Expr>)
      requires Ready() && Rest().toks != []
      modifies lex
      ensures Reads(r, G.ParseAggr(lib, old(Rest())))
      decreases |Rest().toks|, 5
    {
      hide G.KeywordOf, G.ParseModifier, G.ParseArgs, G.ParseAggrSuffix, IsIdentPrefix, Lower, Ready, Rest;
      Current();
      if G.KeywordOf(lex.token) != G.AggrName {
        return None;
      }
      var name := Lower(lex.token);
      var ok := Next();
      if !ok {
        return None;
      }
      var modifier := NO_MODIFIER;
      if IsIdentPrefix(lex.token) {
        if G.KeywordOf(lex.token) != G.AggrModifier {
          return None;
        }
        var before := ParseModifier();
        if before.None? {
          return None;
        }
        modifier := before.value;
      }
      var args := ParseArgs();
      if args.None? {
        return None;
      }
      r := ParseAggrSuffix(name, args.value, modifier);
    }

    method ParseAggrSuffix(name: string, args: seq<Expr>, before: Modifier) returns (r: Option<Expr>)
      requires Ready() && !lex.err
      modifies lex
      ensures Reads(r, G.ParseAggrSuffix(name, args, before, old(Rest())))
    {
      hide G.KeywordOf, G.ParseModifier, Atoi, Ready, Rest;
      Current();
      var modifier, limit := before, 0;
      if before.op == "" && G.KeywordOf(lex.token) == G.AggrModifier {
        var after := ParseModifier();
        if after.None? {
          return None;
        }
        modifier := after.value;
      }
      Current();
      if G.KeywordOf(lex.token) == G.LimitWord {
        var ok := Next();
        if !ok {
          return None;
        }
        var n := Atoi(lex.token);
        if n.None? {
          return None;
        }
        limit := n.value;
        ok := Next();
        if !ok {
          return None;
        }
      }
      return Some(Aggr(name, args, modifier, limit));
    }

    // ----- WITH -----

    method ParseWith() returns (r: Option<Expr>)
      requires Ready()
      modifies lex
      ensures Reads(r, G.ParseWith(lib, old(Rest())))
      decreases |Rest().toks|, 7
    {
      hide G.KeywordOf, G.MarkOf, G.RepeatsName, G.ParseWithArgs, G.ParseExpr, Ready, Rest, RestAt;
      EmptyStartsNothing();
      G.EmptyIsEof();
      Current();
      if G.KeywordOf(lex.token) != G.WithWord {
        return None;
      }
      var ok := Next();
      if !ok || G.MarkOf(lex.token) != G.LParen {
        return None;
      }
      var was := ParseWithArgs();
      if was.None? {
        return None;
      }
      var twice := HasDuplicateNames(was.value);
      if twice {
        return None;
      }
      ok := Next();
      if !ok {
        return None;
      }
      var body := ParseExpr();
      return if body.Some? then Some(With(was.value, body.value)) else None;
    }

    /** checkDuplicateWithArgNames */
    method HasDuplicateNames(was: seq<WithArg>) returns (b: bool)
      ensures b <==> G.RepeatsName(was)
    {
      var names := seq(|was|, i requires 0 <= i < |was| => was[i].name);
      b := HasDuplicates(names);
      if b {
        var i, j :| 0 <= i < j < |names| && names[i] == names[j];
        assert was[i].name == was[j].name;
      } else {
        forall i, j | 0 <= i < j < |was| ensures was[i].name != was[j].name { assert names[i] != names[j]; }
      }
    }

    method HasDuplicates(names: seq<string>) returns (b: bool)
      ensures b <==> G.Repeats(names)
    {
      var m: set<string> := {};
      for k := 0 to |names|
        invariant forall name :: name in m <==> name in names[..k]
        invariant forall i, j | 0 <= i < j < k :: names[i] != names[j]
      {
        if names[k] in m {
          return true;
        }
        m := m + {names[k]};
      }
      return false;
    }

    method ParseWithArgs() returns (r: Option<seq<WithArg>>)
      requires Ready() && Rest().toks != []
      modifies lex
      ensures Reads(r, G.ParseWithArgs(lib, old(Rest()), []))
      decreases |Rest().toks|, 5
    {
      hide G.MarkOf, G.ParseWithArg, Ready, Rest;
      G.EmptyIsEof();
      ghost var start := |Rest().toks|;
      ghost var goal := G.ParseWithArgs(lib, Rest(), []);
      var was := [];
      while true
        invariant Ready() && 0 < |Rest().toks| <= start && G.ParseWithArgs(lib, Rest(), was) == goal
        decreases |Rest().toks|
      {
        var ok := Next();
        if !ok {
          return None;
        }
        if G.MarkOf(lex.token) == G.RParen {
          return Some(was);
        }
        var wa := ParseWithArg();
        if wa.None? {
          return None;
        }
        was := was + [wa.value];
        Current();
        match G.MarkOf(lex.token) {
          case Comma => continue;
          case RParen => return Some(was);
          case _ => return None;
        }
      }
    }

    method ParseParams() returns (r: Option<seq<string>>)
      requires Ready() && !lex.err
      modifies lex
      ensures Reads(r, G.ParseParams(old(Rest())))
    {
      hide G.MarkOf, G.ParseIdents, Ready, Rest;
      Current();
      if G.MarkOf(lex.token) != G.LParen {
        return Some([]);
      }
      r := ParseIdentList();
    }

    method ParseWithArg() returns (r: Option<WithArg>)
      requires Ready()
      modifies lex
      ensures Reads(r, G.ParseWithArg(lib, old(Rest())))
      decreases |Rest().toks|, 4
    {
      hide G.KeywordOf, G.MarkOf, G.Advance, G.Tok, G.Repeats, G.ParseParams, G.ParseExpr, IsIdentPrefix, Ready, Rest, RestAt;
      EmptyStartsNothing();
      Current();
      if !IsIdentPrefix(lex.token) {
        return None;
      }
      var name := lex.token;
      if G.KeywordOf(name) == G.AggrName || lib.isRollupOrTransform(name) || G.KeywordOf(name) == G.WithWord {
        return None;
      }
      var id := Left();
      var ok := Next();
      if !ok {
        return None;
      }
      var params := ParseParams();
      if params.None? {
        return None;
      }
      var twice := HasDuplicates(params.value);
      if twice {
        return None;
      }
      Current();
      if G.MarkOf(lex.token) != G.Equal {
        return None;
      }
      ok := Next();
      if !ok {
        return None;
      }
      var body := ParseExpr();
      return if body.Some? then Some(WithArg(id, name, params.value, body.value)) else None;
    }

    /** How many tokens are left. The number stands for the address that Go
        gives a new definition. */
    method Left() returns (n: nat)
      requires Ready() && Rest().toks != []
      ensures n == |Rest().toks|
    {
      hide Lex;
      n := |Lex(lex.sOrig).toks| + 1 - |lex.prevTokens|;
    }
  }

  /** The first half of Parse: from the text of a query to its tree. */
  method ParseText(lib: Lib, text: string) returns (r: Option<Expr>)
    ensures r == G.ParseQuery(lib, Lex(text))
  {
    hide Lex, G.ParseExpr;
    var lex := new Lexer(text);
    var ok := lex.Next();
    if !ok {
      NoTokens(lib, Lex(text));
      return None;
    }
    var p := new Parser(lib, lex);
    p.Started();
    r := p.ParseExpr();
    if r.None? {
      return None;
    }
    p.Current();
    return if lex.token == "" then r else None;
  }

  /** Text that does not start with a token is no query. */
  lemma NoTokens(lib: Lib, s: G.Stream)
    requires s.toks == []
    ensures G.ParseQuery(lib, s) == None
  {
  }
}
