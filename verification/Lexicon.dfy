/** How the tokens that the printer writes are classified by the parser. */
module Lexicon {
  import opened Text
  import opened Syntax
  import opened Scan
  import opened Grammar

  /** The classification of a token: punctuation, keyword, operator. */
  predicate Is(tok: string, m: Mark, k: Keyword, op: Option<BinOp>) {
    MarkOf(tok) == m && KeywordOf(tok) == k && OpOf(tok) == op
  }

  predicate IsLetter(c: char) { 'a' <= c <= 'z' || 'A' <= c <= 'Z' }

  /** Keywords start with a letter. */
  lemma NotAKeyword(t: string)
    requires t == [] || !IsLetter(t[0])
    ensures KeywordOf(t) == NoKeyword
  {
    var l := Lower(t);
    if l != [] {
      assert !('a' <= l[0] <= 'z');
    }
  }

  lemma Punctuation(t: string)
    requires t in {"", "(", ")", "{", "}", "[", "]", ","}
    ensures KeywordOf(t) == NoKeyword && OpOf(t) == None && !IsIdentPrefix(t)
  {
    NotAKeyword(t);
    assert |Lower(t)| == |t|;
    if t != "" { assert Lower(t)[0] == t[0]; }
  }

  lemma FilterOperator(t: string)
    requires t in {"=", "!=", "=~", "!~"}
    ensures MarkOf(t) == if t == "=" then Equal else if t == "!=" then NotEqual else if t == "=~" then Matches else NotMatches
  {
  }

  lemma SymbolOp(op: BinOp)
    requires !IsLetter(OpText(op)[0])
    ensures OpOf(OpText(op)) == Some(op) && Lower(OpText(op)) == OpText(op)
  {
    assert Lower(OpText(op)) == OpText(op);
  }

  lemma WordOp(op: BinOp)
    requires IsLetter(OpText(op)[0])
    ensures OpOf(OpText(op)) == Some(op) && KeywordOf(OpText(op)) == NoKeyword && IsIdentPrefix(OpText(op))
  {
    assert Lower(OpText(op)) == OpText(op);
    WordIsNoKeyword(op);
  }

  lemma WordIsNoKeyword(op: BinOp)
    requires Lower(OpText(op)) == OpText(op)
    ensures KeywordOf(OpText(op)) == NoKeyword
  {
    hide Lower;
  }

  /** An operator is read as that operator and as no keyword. */
  lemma OperatorToken(op: BinOp)
    ensures OpOf(OpText(op)) == Some(op) && KeywordOf(OpText(op)) == NoKeyword
    ensures MarkOf(OpText(op)) in {Plus, Minus, NotEqual, Other} && (MarkOf(OpText(op)) == Plus <==> op == Add)
    ensures OpText(op) != ""
  {
    if IsLetter(OpText(op)[0]) {
      WordOp(op);
    } else {
      SymbolOp(op);
      NotAKeyword(OpText(op));
    }
  }

  lemma KeywordTokens()
    ensures Is("bool", Other, BoolWord, None) && Is("offset", Other, OffsetWord, None)
    ensures Is("limit", Other, LimitWord, None)
  {
    assert Lower("bool") == "bool" && Lower("offset") == "offset" && Lower("limit") == "limit";
  }

  const UPPER := "ABCDEFGHIJKLMNOPQRSTUVWXYZ"
  const LOWER := "abcdefghijklmnopqrstuvwxyz"

  /** Lower-casing maps the capitals to their small letters and keeps all
      other characters. */
  lemma LowerIsExact(c: char)
    ensures forall i | 0 <= i < 26 :: UPPER[i] == c ==> LowerChar(c) == LOWER[i]
    ensures c !in UPPER ==> LowerChar(c) == c
  {
    var i := c as int - 'A' as int;
    forall k | 0 <= k < 26 ensures UPPER[k] as int == 'A' as int + k && LOWER[k] as int == 'a' as int + k { Letter(k); }
    if 0 <= i < 26 { assert UPPER[i] == c; }
  }

  lemma Letter(k: nat)
    requires k < 26
    ensures UPPER[k] as int == 'A' as int + k && LOWER[k] as int == 'a' as int + k
  {
  }

  /** Case does not matter to words and operators. */
  lemma CaseIsIgnored(t: string, u: string)
    requires Lower(t) == Lower(u)
    ensures KeywordOf(t) == KeywordOf(u) && OpOf(t) == OpOf(u)
  {
  }

  /** The character classes, letter by letter. */
  lemma ClassesAreExact(c: char)
    ensures IsFirstIdentChar(c) <==> c in LOWER || c in UPPER || c in "_:"
    ensures IsIdentChar(c) <==> c in LOWER || c in UPPER || c in "_:.0123456789"
    ensures IsGraphiteChar(c) <==> c in "-|?"
    ensures IsSpaceChar(c) <==> c in " \t\n\U{0B}\U{0C}\r"
    ensures c in UNITS <==> c in "smhdwyi"
  {
    LettersAreListed(c);
    DigitsAreListed(c);
  }

  lemma LettersAreListed(c: char)
    ensures 'a' <= c <= 'z' <==> c in LOWER
    ensures 'A' <= c <= 'Z' <==> c in UPPER
  {
    forall k | 0 <= k < 26 ensures UPPER[k] as int == 'A' as int + k && LOWER[k] as int == 'a' as int + k { Letter(k); }
    if 'a' <= c <= 'z' { assert LOWER[c as int - 'a' as int] == c; }
    if 'A' <= c <= 'Z' { assert UPPER[c as int - 'A' as int] == c; }
  }

  lemma DigitsAreListed(c: char)
    ensures IsDecimalChar(c) <==> c in "0123456789"
    ensures c in "_:.0123456789" <==> c in "_:." || c in "0123456789"
  {
    if IsDecimalChar(c) { assert "0123456789"[c as int - '0' as int] == c; }
  }
}
