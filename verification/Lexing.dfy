/** The lexer: one straight pass over the text as a function, and the lexer
    object, which makes that pass on demand and can step back. */
module Lexing {
  import opened Text
  import opened Syntax
  import opened Scan
  import opened Grammar

  // ----- one token -----

  /** Does `s` start with the operator, in any case? */
  predicate StartsWithOp(s: string, op: BinOp) {
    |OpText(op)| <= |s| && Lower(s[..|OpText(op)|]) == OpText(op)
  }

  /** `n` is the length of the longest operator that `s` starts with, or 0. */
  predicate IsOpLength(s: string, n: nat) {
    && (forall op :: StartsWithOp(s, op) ==> |OpText(op)| <= n)
    && (n > 0 ==> exists op :: StartsWithOp(s, op) && |OpText(op)| == n)
  }

  function OpLengthAmong(s: string, ops: seq<BinOp>): nat {
    if ops == [] then 0
    else
      var n := OpLengthAmong(s, ops[1..]);
      if StartsWithOp(s, ops[0]) && |OpText(ops[0])| > n then |OpText(ops[0])| else n
  }

  const ALL_OPS: seq<BinOp> :=
    [Add, Sub, Mul, Div, Mod, Pow, Eql, Neq, Gtr, Lss, Geq, Leq, And, Or, Unless, If, IfNot, Default]

  function OpLength(s: string): nat { OpLengthAmong(s, ALL_OPS) }

  lemma {:induction false} OpLengthAmongIsMax(s: string, ops: seq<BinOp>)
    ensures var n := OpLengthAmong(s, ops);
            && n <= |s|
            && (forall op <- ops :: StartsWithOp(s, op) ==> |OpText(op)| <= n)
            && (n > 0 ==> exists op <- ops :: StartsWithOp(s, op) && |OpText(op)| == n)
  {
    if ops != [] {
      OpLengthAmongIsMax(s, ops[1..]);
      assert ops == [ops[0]] + ops[1..];
    }
  }

  lemma AllOpsAreListed(op: BinOp)
    ensures op in ALL_OPS
  {
    var s := ALL_OPS;
    assert s[0] == Add && s[1] == Sub && s[2] == Mul && s[3] == Div && s[4] == Mod && s[5] == Pow;
    assert s[6] == Eql && s[7] == Neq && s[8] == Gtr && s[9] == Lss && s[10] == Geq && s[11] == Leq;
    assert s[12] == And && s[13] == Or && s[14] == Unless && s[15] == If && s[16] == IfNot && s[17] == Default;
  }

  lemma OpLengthIsMax(s: string)
    ensures IsOpLength(s, OpLength(s)) && OpLength(s) <= |s|
  {
    hide OpText;
    OpLengthAmongIsMax(s, ALL_OPS);
    forall op ensures op in ALL_OPS { AllOpsAreListed(op); }
  }

  lemma OpLengthIsUnique(s: string, m: nat, n: nat)
    requires IsOpLength(s, m) && IsOpLength(s, n)
    ensures m == n
  {
    hide StartsWithOp, OpText;
  }

  lemma AllOpsAreInTable(op: BinOp)
    ensures op in BINARY_OPS
  {
  }

  /** scanBinaryOpPrefix: the table is a map, which Go visits in any order. */
  method ScanBinaryOpPrefix(s: string) returns (n: nat)
    ensures n == OpLength(s)
  {
    hide OpText, StartsWithOp;
    n := 0;
    var left := BINARY_OPS;
    while left != {}
      invariant forall op | op in BINARY_OPS - left && StartsWithOp(s, op) :: |OpText(op)| <= n
      invariant n > 0 ==> exists op :: StartsWithOp(s, op) && |OpText(op)| == n
      decreases left
    {
      var op :| op in left;
      left := left - {op};
      if StartsWithOp(s, op) && |OpText(op)| > n {
        n := |OpText(op)|;
      }
    }
    forall op ensures op in BINARY_OPS { AllOpsAreInTable(op); }
    OpLengthIsMax(s);
    OpLengthIsUnique(s, n, OpLength(s));
  }

  /** scanTagFilterOpPrefix */
  function FilterOpLength(s: string): (n: int)
    ensures -1 <= n <= |s| && n != 0
  {
    if |s| >= 2 && ((s[0] == '=' && s[1] == '~') || (s[0] == '!' && (s[1] == '~' || s[1] == '='))) then 2
    else if s != [] && s[0] == '=' then 1
    else -1
  }

  predicate IsPunctuation(c: char) { c in {'{', '}', '[', ']', '(', ')', ','} }

  /** Length of the token at the start of text that is no space or comment,
      or -1 when there is none. */
  function TokenLength(s: string): (n: int)
    requires s != []
    ensures n == -1 || 0 < n <= |s|
  {
    OpLengthIsMax(s);
    if IsPunctuation(s[0]) then 1
    else if IsIdentPrefix(s) then IdentLength(s)
    else if IsStringPrefix(s) then if ClosingQuote(s, 1) < 0 then -1 else ClosingQuote(s, 1) + 1
    else if OpLength(s) > 0 then OpLength(s)
    else if FilterOpLength(s) > 0 then FilterOpLength(s)
    else if DurationLength(s, false) > 0 then DurationLength(s, false)
    else if IsNumberPrefix(s) then NumberLength(s)
    else -1
  }

  method ScanToken(s: string) returns (n: int)
    requires s != []
    ensures n == TokenLength(s)
  {
    if IsPunctuation(s[0]) {
      return 1;
    }
    if IsIdentPrefix(s) {
      n := ScanIdent(s);
      return;
    }
    if IsStringPrefix(s) {
      n := ScanString(s);
      return;
    }
    n := ScanBinaryOpPrefix(s);
    if n > 0 {
      return;
    }
    n := FilterOpLength(s);
    if n > 0 {
      return;
    }
    n := ScanDuration(s, false);
    if n > 0 {
      return;
    }
    if IsNumberPrefix(s) {
      n := ScanPositiveNumber(s);
      return;
    }
    return -1;
  }

  // ----- the straight pass -----

  function SpacesEnd(s: string, i: nat): (n: nat)
    requires i <= |s|
    ensures i <= n <= |s| && (n < |s| ==> !IsSpaceChar(s[n]))
    ensures forall k | i <= k < n :: IsSpaceChar(s[k])
    decreases |s| - i
  {
    if i < |s| && IsSpaceChar(s[i]) then SpacesEnd(s, i + 1) else i
  }

  /** Where spaces and a comment with its line end are over, or -1 when there
      is no such comment after the spaces. */
  function CommentLine(s: string): (c: int)
    ensures c == -1 || 0 < c <= |s|
  {
    var i := SpacesEnd(s, 0);
    if i == |s| || s[i] != '#' then -1
    else
      var n := IndexOf(s[i + 1..], '\n');
      if n < 0 then -1 else i + 2 + n
  }

  /** Where the next token starts: after spaces and whole comment lines. At
      the end of the text, or at a last comment without a line end, nothing
      follows. */
  function SkipBlank(s: string): (n: nat)
    ensures n <= |s|
    decreases |s|
  {
    var c := CommentLine(s);
    if c < 0 then SpacesEnd(s, 0) else c + SkipBlank(s[c..])
  }

  /** What one call of the scanner finds in the text that is left. */
  datatype Step = EndOfInput | BadText | Found(skipped: string, tok: string, tail: string)

  function LexStep(s: string): (r: Step)
    ensures r.Found? ==> s == r.skipped + r.tok + r.tail && r.tok != "" && |r.tail| < |s|
  {
    var i := SkipBlank(s);
    if i == |s| || s[i] == '#' then EndOfInput
    else
      var n := TokenLength(s[i..]);
      if n < 0 then BadText else Found(s[..i], s[i..][..n], s[i..][n..])
  }

  /** All tokens of a text. */
  function Lex(s: string): (r: Stream)
    ensures |r.toks| <= |s|
    decreases |s|
  {
    match LexStep(s)
    case EndOfInput => Stream([], false)
    case BadText => Stream([], true)
    case Found(_, tok, tail) => var more := Lex(tail); Stream([tok] + more.toks, more.bad)
  }

  /** The tokens with the blank text before each, and what is left. */
  function Pieces(s: string): (seq<(string, string)>, string)
    decreases |s|
  {
    match LexStep(s)
    case Found(skipped, tok, tail) => var more := Pieces(tail); ([(skipped, tok)] + more.0, more.1)
    case _ => ([], s)
  }

  function Rebuild(pieces: seq<(string, string)>): string {
    if pieces == [] then "" else pieces[0].0 + pieces[0].1 + Rebuild(pieces[1..])
  }

  /** Only spaces and comments that end with their line. */
  predicate IsBlank(s: string)
    decreases |s|
  {
    s == [] ||
    (IsSpaceChar(s[0]) && IsBlank(s[1..])) ||
    (s[0] == '#' && IndexOf(s, '\n') >= 0 && IsBlank(s[IndexOf(s, '\n') + 1..]))
  }

  lemma {:induction false} SpacesAreBlank(s: string)
    requires forall k | 0 <= k < |s| :: IsSpaceChar(s[k])
    ensures IsBlank(s)
  {
    if s != [] { SpacesAreBlank(s[1..]); }
  }

  lemma {:induction false} IndexOfPrefix(s: string, t: string, c: char)
    requires IndexOf(s, c) >= 0
    ensures IndexOf(s + t, c) == IndexOf(s, c)
  {
    assert (s + t)[1..] == s[1..] + t;
    if s[0] != c { IndexOfPrefix(s[1..], t, c); }
  }

  lemma {:induction false} BlankAppend(s: string, t: string)
    requires IsBlank(s) && IsBlank(t)
    ensures IsBlank(s + t)
    decreases |s|
  {
    if s == [] {
      assert s + t == t;
    } else if IsSpaceChar(s[0]) {
      BlankAppend(s[1..], t);
      assert (s + t)[1..] == s[1..] + t;
    } else {
      var n := IndexOf(s, '\n');
      IndexOfPrefix(s, t, '\n');
      BlankAppend(s[n + 1..], t);
      assert (s + t)[n + 1..] == s[n + 1..] + t;
    }
  }

  lemma {:induction false} IndexOfFirst(s: string, c: char, n: nat)
    requires n < |s| && s[n] == c && forall k | 0 <= k < n :: s[k] != c
    ensures IndexOf(s, c) == n
  {
    if n > 0 { IndexOfFirst(s[1..], c, n - 1); }
  }

  lemma CommentIsBlank(s: string, i: nat, m: nat)
    requires i + 1 + m < |s| && s[i] == '#' && IndexOf(s[i + 1..], '\n') == m
    ensures IsBlank(s[i..i + 2 + m])
  {
    var line := s[i..i + 2 + m];
    assert s[i + 1..][m] == '\n' == line[m + 1];
    forall k | 0 <= k < m + 1 ensures line[k] != '\n' {
      if k > 0 { assert line[k] == s[i + 1..][..m][k - 1]; }
    }
    IndexOfFirst(line, '\n', m + 1);
    assert line[m + 2..] == [];
  }

  lemma CommentLineIsBlank(s: string)
    requires CommentLine(s) >= 0
    ensures IsBlank(s[..CommentLine(s)])
  {
    hide IsBlank, SpacesEnd, IndexOf;
    var i := SpacesEnd(s, 0);
    SpacesAreBlank(s[..i]);
    CommentIsBlank(s, i, IndexOf(s[i + 1..], '\n'));
    BlankAppend(s[..i], s[i..CommentLine(s)]);
    assert s[..i] + s[i..CommentLine(s)] == s[..CommentLine(s)];
  }

  lemma {:induction false} SkippedIsBlank(s: string)
    ensures IsBlank(s[..SkipBlank(s)])
    decreases |s|
  {
    hide IsBlank, SpacesEnd, CommentLine;
    var c := CommentLine(s);
    if c < 0 {
      SpacesAreBlank(s[..SpacesEnd(s, 0)]);
    } else {
      CommentLineIsBlank(s);
      SkippedIsBlank(s[c..]);
      BlankAppend(s[..c], s[c..][..SkipBlank(s[c..])]);
      assert s[..c] + s[c..][..SkipBlank(s[c..])] == s[..SkipBlank(s)];
    }
  }

  /** The lexer is lossless: blank text, tokens and the rest rebuild the text,
      the tokens are those of the pass, and none is empty. */
  lemma {:induction false} LexerIsLossless(s: string)
    ensures var (pieces, tail) := Pieces(s);
            && Rebuild(pieces) + tail == s
            && |pieces| == |Lex(s).toks|
            && (forall i | 0 <= i < |pieces| :: IsBlank(pieces[i].0) && pieces[i].1 == Lex(s).toks[i] && pieces[i].1 != "")
            && !LexStep(tail).Found? && (Lex(s).bad <==> LexStep(tail).BadText?)
    decreases |s|
  {
    hide SkipBlank, TokenLength, IsBlank;
    var step := LexStep(s);
    if step.Found? {
      LexerIsLossless(step.tail);
      var (pieces, tail) := Pieces(s);
      var (more, _) := Pieces(step.tail);
      assert pieces[1..] == more;
      assert IsBlank(step.skipped) by { SkippedTextIsBlank(s); }
      assert s == step.skipped + step.tok + (Rebuild(more) + tail);
    }
  }

  lemma SkippedTextIsBlank(s: string)
    requires LexStep(s).Found?
    ensures IsBlank(LexStep(s).skipped)
  {
    hide TokenLength;
    SkippedIsBlank(s);
  }

  // ----- the scanner of the lexer object -----

  /** What is found does not depend on blank text skipped before. */
  predicate SameStep(a: Step, b: Step) {
    match a
    case EndOfInput => b.EndOfInput?
    case BadText => b.BadText?
    case Found(_, tok, tail) => b.Found? && b.tok == tok && b.tail == tail
  }

  lemma {:induction false} SpacesDone(s: string, i: nat)
    requires i <= |s| && SpacesEnd(s, 0) == i
    ensures SpacesEnd(s[i..], 0) == 0
  {
  }

  lemma CommentAfterSpaces(s: string, i: nat)
    requires SpacesEnd(s, 0) == i
    ensures CommentLine(s) == if CommentLine(s[i..]) < 0 then -1 else i + CommentLine(s[i..])
  {
    hide SpacesEnd, IndexOf;
    SpacesDone(s, i);
    assert i < |s| ==> s[i..][1..] == s[i + 1..];
  }

  lemma BlankAfterSpaces(s: string, i: nat)
    requires SpacesEnd(s, 0) == i
    ensures SkipBlank(s) == i + SkipBlank(s[i..])
  {
    hide SpacesEnd, CommentLine;
    SpacesDone(s, i);
    CommentAfterSpaces(s, i);
    var c := CommentLine(s[i..]);
    if c >= 0 { assert s[i..][c..] == s[i + c..]; }
  }

  /** Text that starts its tokens at the same place yields the same token. */
  lemma SameTail(s: string, t: string)
    requires s[SkipBlank(s)..] == t[SkipBlank(t)..]
    ensures SameStep(LexStep(s), LexStep(t))
  {
    hide TokenLength, SkipBlank;
    var i, j := SkipBlank(s), SkipBlank(t);
    assert i < |s| ==> s[i] == s[i..][0];
    assert j < |t| ==> t[j] == t[j..][0];
  }

  lemma SkipSpaces(s: string, i: nat)
    requires SpacesEnd(s, 0) == i
    ensures SameStep(LexStep(s[i..]), LexStep(s))
  {
    hide SkipBlank, LexStep;
    BlankAfterSpaces(s, i);
    assert s[i..][SkipBlank(s[i..])..] == s[SkipBlank(s)..];
    SameTail(s[i..], s);
  }

  lemma SkipComment(s: string, n: nat)
    requires s != [] && s[0] == '#' && IndexOf(s[1..], '\n') == n
    ensures SameStep(LexStep(s[1..][n + 1..]), LexStep(s))
  {
    hide LexStep, IndexOf;
    var tail := s[1..][n + 1..];
    assert s[n + 2..] == tail;
    assert SkipBlank(s) == n + 2 + SkipBlank(tail);
    assert tail[SkipBlank(tail)..] == s[SkipBlank(s)..];
    SameTail(tail, s);
  }

  /** How the pass goes on from the text that is left. */
  lemma PassGoesOn(full: Stream, p: nat, s: string)
    requires Lex(s) == Stream(if p <= |full.toks| then full.toks[p..] else [], full.bad)
    requires p <= |full.toks| || !full.bad
    ensures match LexStep(s) {
              case EndOfInput => p >= |full.toks| && !full.bad
              case BadText => p == |full.toks| && full.bad
              case Found(_, t, tail) => p < |full.toks| && t == full.toks[p] && Lex(tail) == Stream(full.toks[p + 1..], full.bad)
            }
  {
    hide LexStep;
    var step := LexStep(s);
    if step.Found? {
      assert Lex(s).toks[1..] == Lex(step.tail).toks;
      assert p < |full.toks|;
      assert full.toks[p..][1..] == full.toks[p + 1..];
    }
  }

  lemma EndStays(s: string)
    requires LexStep(s).EndOfInput?
    ensures Lex(s) == Stream([], false)
  {
  }

  class Lexer {
    /** The current token; empty before the first one and at the end. */
    var token: string
    var prevTokens: seq<string>
    var nextTokens: seq<string>
    const sOrig: string
    var sTail: string
    var err: bool

    /** How many tokens have been moved over: calls of Next less calls of
        Prev. */
    ghost var pos: nat
    /** Tokens before this position may have been changed by the parser. */
    ghost var floor: nat
    /** A failed Next has recorded the current token once more. */
    ghost var extra: bool

    ghost function Full(): Stream { Lex(sOrig) }

    /** The token at a position of the straight pass, starting before the
        first token; end of input repeats. */
    ghost function At(p: nat): string {
      if 1 <= p <= |Full().toks| then Full().toks[p - 1] else ""
    }

    /** Is there a token at this position? */
    ghost predicate Within(p: nat) { p <= |Full().toks| || !Full().bad }

    ghost predicate Valid()
      reads this
    {
      && |prevTokens| == (if extra then pos + 1 else pos) && Within(pos)
      && (forall k | floor <= k < pos :: prevTokens[k] == At(k))
      && (extra ==> err && prevTokens[pos] == token)
      && (err ==> Full().bad)
      && (!err ==> AheadValid(pos + |nextTokens|))
    }

    /** The tokens stepped back over are kept, and the rest of the text holds
        the tokens after them. */
    ghost predicate AheadValid(ahead: nat)
      reads this
    {
      && Within(ahead) && ahead >= |nextTokens|
      && (forall i | 0 <= i < |nextTokens| :: nextTokens[i] == At(ahead - i))
      && Lex(sTail) == Stream(if ahead <= |Full().toks| then Full().toks[ahead..] else [], Full().bad)
    }

    /** The current token is that of the straight pass. */
    ghost predicate Synced()
      reads this
    {
      Valid() && token == At(pos) && floor <= pos
    }

    /** lexer.Init */
    constructor (s: string)
      ensures Synced() && sOrig == s && pos == 0 && floor == 0 && !err && !extra && prevTokens == []
    {
      token, prevTokens, nextTokens, err := "", [], [], false;
      sOrig, sTail := s, s;
      pos, floor, extra := 0, 0, false;
    }

    /** lexer.next */
    method NextToken() returns (ok: bool, tok: string)
      modifies this`sTail
      ensures match LexStep(old(sTail)) {
                case EndOfInput => ok && tok == "" && LexStep(sTail).EndOfInput?
                case BadText => !ok
                case Found(_, t, tail) => ok && tok == t && sTail == tail
              }
    {
      while true
        invariant SameStep(LexStep(sTail), LexStep(old(sTail)))
        decreases |sTail|
      {
        var s := sTail;
        var i := 0;
        while i < |s| && IsSpaceChar(s[i])
          invariant i <= |s| && SpacesEnd(s, i) == SpacesEnd(s, 0)
        {
          i := i + 1;
        }
        SkipSpaces(s, i);
        s := s[i..];
        sTail := s;
        if |s| == 0 {
          return true, "";
        }
        if s[0] == '#' {
          s := s[1..];
          var n := IndexOf(s, '\n');
          if n < 0 {
            return true, "";
          }
          SkipComment(sTail, n);
          sTail := s[n + 1..];
          continue;
        }
        var n := ScanToken(s);
        if n < 0 {
          return false, "";
        }
        sTail := s[n..];
        return true, s[..n];
      }
    }

    /** lexer.Next: moves to the next token of the pass, or fails for good. */
    method Next() returns (ok: bool)
      requires Valid() && floor <= pos + 1 && (floor <= pos ==> token == At(pos))
      modifies this
      ensures Valid() && floor == old(floor)
      ensures ok <==> !old(err) && Within(old(pos) + 1)
      ensures ok ==> pos == old(pos) + 1 && Synced() && prevTokens == old(prevTokens) + [old(token)]
      ensures err <==> !ok
      ensures !ok ==> pos == old(pos) && token == old(token)
      ensures !ok && !old(err) ==> extra
      ensures old(err) ==> unchanged(this)
    {
      hide Lex;
      if err {
        return false;
      }
      prevTokens := prevTokens + [token];
      assert forall k | floor <= k < pos :: prevTokens[k] == old(prevTokens)[k];
      assert Leaving();
      if |nextTokens| > 0 {
        Recall();
        return true;
      }
      ok := Scan();
    }

    /** The state of Next after it has recorded the current token. */
    ghost predicate Leaving()
      reads this
    {
      && !err && !extra && |prevTokens| == pos + 1 && Within(pos) && floor <= pos + 1
      && (forall k | floor <= k <= pos :: prevTokens[k] == At(k))
      && prevTokens[pos] == token && AheadValid(pos + |nextTokens|)
    }

    /** Next, when a token was stepped back over. */
    method Recall()
      requires Leaving() && |nextTokens| > 0
      modifies this`token, this`nextTokens, this`pos
      ensures Synced() && pos == old(pos) + 1
    {
      hide Lex;
      token := nextTokens[|nextTokens| - 1];
      nextTokens := nextTokens[..|nextTokens| - 1];
      pos := pos + 1;
    }

    /** Next, when the text has to be scanned. */
    method Scan() returns (ok: bool)
      requires Leaving() && nextTokens == []
      modifies this`token, this`sTail, this`pos, this`err, this`extra
      ensures Valid() && (ok <==> Within(old(pos) + 1)) && (err <==> !ok)
      ensures ok ==> Synced() && pos == old(pos) + 1
      ensures !ok ==> pos == old(pos) && token == old(token) && extra
    {
      hide LexStep;
      PassGoesOn(Full(), pos, sTail);
      hide Lex;
      ghost var full, tail := Full(), sTail;
      assert full.toks == Full().toks && full.bad == Full().bad;
      var tok;
      ok, tok := NextToken();
      if LexStep(sTail).EndOfInput? { EndStays(sTail); }
      if !ok {
        err, extra := true, true;
        return;
      }
      token := tok;
      pos := pos + 1;
    }

    /** The positions around the current token. */
    lemma StepsBack()
      requires Synced()
      ensures pos > 0 ==> Within(pos - 1)
    {
    }

    /** lexer.Prev: moves back to the token before. */
    method Prev()
      requires Synced() && |prevTokens| > 0 && (extra || floor < pos)
      modifies this
      ensures Synced() && floor == old(floor) && err == old(err) && !extra
      ensures pos == if old(extra) then old(pos) else old(pos) - 1
      ensures prevTokens == old(prevTokens)[..|old(prevTokens)| - 1]
    {
      hide Lex, At, Within;
      StepsBack();
      nextTokens := nextTokens + [token];
      token := prevTokens[|prevTokens| - 1];
      prevTokens := prevTokens[..|prevTokens| - 1];
      if extra {
        extra := false;
      } else {
        pos := pos - 1;
      }
    }
  }

  // ----- any interleaving -----

  datatype Move = Forward | Back

  function Net(moves: seq<Move>): int {
    if moves == [] then 0 else Net(moves[..|moves| - 1]) + if moves[|moves| - 1].Forward? then 1 else -1
  }

  /** Whatever the order of Next and Prev, as long as Prev never outnumbers
      Next: unless a Next has failed, the current token is that of the
      straight pass at Nexts less Prevs; and a Next has failed only if that
      position would have lain beyond text that is no token. */
  method Replay(s: string, moves: seq<Move>) returns (lex: Lexer, done: nat)
    requires forall i | 0 <= i <= |moves| :: Net(moves[..i]) >= 0
    ensures done <= |moves| && lex.sOrig == s && Net(moves[..done]) >= 0
    ensures done == |moves| ==> Net(moves) >= 0 && lex.token == lex.At(Net(moves)) && !lex.err
    ensures done < |moves| ==> moves[done].Forward? && lex.err && !lex.Within(Net(moves[..done]) + 1)
  {
    hide Lex;
    lex := new Lexer(s);
    done := 0;
    while done < |moves|
      invariant done <= |moves| && lex.sOrig == s && fresh(lex)
      invariant lex.Synced() && lex.floor == 0 && !lex.err && lex.pos == Net(moves[..done])
    {
      assert moves[..done + 1][..done] == moves[..done];
      if moves[done].Forward? {
        var ok := lex.Next();
        if !ok {
          return;
        }
      } else {
        assert Net(moves[..done + 1]) >= 0;
        lex.Prev();
      }
      done := done + 1;
    }
    assert moves[..done] == moves;
  }
}
