/** The part of the RE2 syntax that translated globs use: its trees, how its
    text is read, and what it matches. What other patterns match is left open. */
module Regex {
  import opened Text

  datatype Re =
    | Empty
    | Lit(c: char)
    | OneOf(cs: seq<char>)
    | NoneOf(cs: seq<char>)
    | Star(r: Re)
    | Cat(first: Re, rest: Re)
    | Alt(left: Re, right: Re)

  /** The whole of `s` is matched: patterns are anchored at both ends. */
  ghost predicate Match(r: Re, s: string)
    decreases r, |s|
  {
    match r
    case Empty => s == ""
    case Lit(c) => s == [c]
    case OneOf(cs) => |s| == 1 && s[0] in cs
    case NoneOf(cs) => |s| == 1 && s[0] !in cs
    case Star(x) => s == "" || exists k | 1 <= k <= |s| :: Match(x, s[..k]) && Match(r, s[k..])
    case Cat(x, y) => exists k | 0 <= k <= |s| :: Match(x, s[..k]) && Match(y, s[k..])
    case Alt(x, y) => Match(x, s) || Match(y, s)
  }

  // ----- reading -----

  /** A backslash makes these characters stand for themselves. */
  predicate IsEscapable(c: char) { c as int < 128 && !IsLetterOrDigit(c) }

  predicate IsMeta(c: char) { c in {'\\', '.', '+', '*', '?', '(', ')', '|', '[', ']', '{', '}', '^', '$'} }

  predicate IsPostfix(s: string) { s != [] && (s[0] == '*' || s[0] == '+' || s[0] == '?') }

  /** Alternatives separated by bars, up to a closing paren or the end. */
  function ParseAlt(s: string): (r: Option<(Re, string)>)
    ensures r.Some? ==> |r.value.1| <= |s|
    decreases |s|, 2
  {
    match ParseCat(s)
    case None => None
    case Some((x, rest)) =>
      if rest != [] && rest[0] == '|' then
        match ParseAlt(rest[1..])
        case None => None
        case Some((y, rest')) => Some((Alt(x, y), rest'))
      else Some((x, rest))
  }

  function ParseCat(s: string): (r: Option<(Re, string)>)
    ensures r.Some? ==> |r.value.1| <= |s|
    decreases |s|, 1
  {
    if s == [] || s[0] == '|' || s[0] == ')' then Some((Empty, s))
    else
      match ParseItem(s)
      case None => None
      case Some((x, rest)) =>
        match ParseCat(rest)
        case None => None
        case Some((y, rest')) => Some((Cat(x, y), rest'))
  }

  /** One atom and the star after it, if any. Other repetition is not read. */
  function ParseItem(s: string): (r: Option<(Re, string)>)
    requires s != []
    ensures r.Some? ==> |r.value.1| < |s|
    decreases |s|, 0
  {
    match ParseAtom(s)
    case None => None
    case Some((x, rest)) =>
      if !IsPostfix(rest) then Some((x, rest))
      else if rest[0] == '*' && !IsPostfix(rest[1..]) then Some((Star(x), rest[1..]))
      else None
  }

  function ParseAtom(s: string): (r: Option<(Re, string)>)
    requires s != []
    ensures r.Some? ==> |r.value.1| < |s|
    decreases |s|, -1
  {
    if s[0] == '(' then
      match ParseAlt(s[1..])
      case None => None
      case Some((x, rest)) => if rest != [] && rest[0] == ')' then Some((x, rest[1..])) else None
    else if s[0] == '[' then
      var negated := |s| > 1 && s[1] == '^';
      match ParseClass(if negated then s[2..] else s[1..])
      case None => None
      case Some((cs, rest)) => if cs == [] then None else Some((if negated then NoneOf(cs) else OneOf(cs), rest))
    else if s[0] == '\\' then
      if |s| > 1 && IsEscapable(s[1]) then Some((Lit(s[1]), s[2..])) else None
    else if IsMeta(s[0]) then None
    else Some((Lit(s[0]), s[1..]))
  }

  /** The letters, digits and dots of a class, up to its closing bracket. */
  function ParseClass(s: string): (r: Option<(string, string)>)
    ensures r.Some? ==> |r.value.1| < |s|
    decreases |s|
  {
    if s == [] then None
    else if s[0] == ']' then Some(([], s[1..]))
    else if !IsLetterOrDigit(s[0]) && s[0] != '.' then None
    else
      match ParseClass(s[1..])
      case None => None
      case Some((cs, rest)) => Some(([s[0]] + cs, rest))
  }

  function ParseRe(s: string): Option<Re> {
    match ParseAlt(s)
    case None => None
    case Some((r, rest)) => if rest == [] then Some(r) else None
  }

  /** What a database answers for a pattern and a label value, anchored at
      both ends. */
  type Engine = (string, string) -> bool

  /** The engine is right about every pattern of the part read here. About all
      other patterns nothing is known. */
  ghost predicate IsRe2(engine: Engine) {
    forall pattern, s | ParseRe(pattern).Some? :: engine(pattern, s) <==> Match(ParseRe(pattern).value, s)
  }

  /** A starred class matches exactly the strings over the class. */
  lemma {:induction false} StarOfClass(cs: seq<char>, s: string)
    ensures Match(Star(NoneOf(cs)), s) <==> forall i | 0 <= i < |s| :: s[i] !in cs
    decreases |s|
  {
    var r := Star(NoneOf(cs));
    if s != [] {
      StarOfClass(cs, s[1..]);
      assert s[..1] == [s[0]];
      if Match(r, s) {
        var k :| 1 <= k <= |s| && Match(NoneOf(cs), s[..k]) && Match(r, s[k..]);
        assert k == 1 && s[0] == s[..k][0];
        forall i | 0 <= i < |s| ensures s[i] !in cs { if i > 0 { assert s[i] == s[1..][i - 1]; } }
      }
      if forall i | 0 <= i < |s| :: s[i] !in cs {
        assert Match(NoneOf(cs), s[..1]) && Match(r, s[1..]);
      }
    }
  }
}
