/** Removal of repeated label filters, which are compared by their printed
    form, and the proof that this is comparison of the filters themselves. */
module Filters {
  import opened Text
  import opened Syntax
  import opened Library
  import opened Ident

  function FilterOp(f: LabelFilter): string {
    if f.isNegative then (if f.isRegexp then "!~" else "!=") else (if f.isRegexp then "=~" else "=")
  }

  /** LabelFilter.AppendString */
  function Key(lib: Lib, f: LabelFilter): string { Escape(f.key) + FilterOp(f) + lib.quote(f.value) }

  predicate IsByteFilter(f: LabelFilter) { IsByteString(f.key) }

  // ----- the printed form determines the filter -----

  lemma EscapeCharIsPrefixCode(c: char, d: char, first: bool, x: string, y: string)
    requires c as int < 256 && d as int < 256
    requires EscapeChar(c, first) + x == EscapeChar(d, first) + y
    ensures c == d && x == y
  {
    UnescapeChar(c, first, x);
    UnescapeChar(d, first, y);
    assert [c] + Unescape(x) == [d] + Unescape(y);
    assert ([c] + Unescape(x))[0] == ([d] + Unescape(y))[0];
    var u := EscapeChar(c, first);
    assert x == (u + x)[|u|..] == (u + y)[|u|..] == y;
  }

  lemma EscapeFromSplits(s: string, first: bool, x: string)
    requires s != []
    ensures EscapeFrom(s, first) + x == EscapeChar(s[0], first) + (EscapeFrom(s[1..], false) + x)
    ensures EscapeChar(s[0], first)[0] !in {'=', '!'}
  {
  }

  lemma {:induction false} EscapeThenOp(s: string, t: string, first: bool, x: string, y: string)
    requires IsByteString(s) && IsByteString(t)
    requires x != [] && y != [] && x[0] in {'=', '!'} && y[0] in {'=', '!'}
    requires EscapeFrom(s, first) + x == EscapeFrom(t, first) + y
    ensures s == t && x == y
    decreases |s|
  {
    hide EscapeChar;
    if s != [] { EscapeFromSplits(s, first, x); }
    if t != [] { EscapeFromSplits(t, first, y); }
    assert s == [] ==> EscapeFrom(s, first) + x == x;
    assert t == [] ==> EscapeFrom(t, first) + y == y;
    if s != [] && t != [] {
      EscapeCharIsPrefixCode(s[0], t[0], first, EscapeFrom(s[1..], false) + x, EscapeFrom(t[1..], false) + y);
      EscapeThenOp(s[1..], t[1..], false, x, y);
    }
  }

  /** No two filters print the same. */
  lemma KeyIsInjective(lib: Lib, f: LabelFilter, g: LabelFilter)
    requires QuotesFaithfully(lib) && IsByteFilter(f) && IsByteFilter(g)
    requires Key(lib, f) == Key(lib, g)
    ensures f == g
  {
    var x, y := FilterOp(f) + lib.quote(f.value), FilterOp(g) + lib.quote(g.value);
    assert Key(lib, f) == Escape(f.key) + x && Key(lib, g) == Escape(g.key) + y;
    EscapeThenOp(f.key, g.key, true, x, y);
    assert |x| > 1 && x[0] == y[0] && x[1] == y[1];
    assert FilterOp(f) == FilterOp(g);
    assert lib.quote(f.value) == x[|FilterOp(f)|..] == y[|FilterOp(g)|..] == lib.quote(g.value);
  }

  // ----- first occurrences -----

  /** The elements that do not occur earlier, in order. */
  function FirstOccurrences<T(==)>(s: seq<T>): (r: seq<T>)
    ensures |r| <= |s|
  {
    if s == [] then []
    else
      var before := FirstOccurrences(s[..|s| - 1]);
      if s[|s| - 1] in s[..|s| - 1] then before else before + [s[|s| - 1]]
  }

  predicate Distinct<T(==)>(s: seq<T>) { forall i, j | 0 <= i < j < |s| :: s[i] != s[j] }

  /** Nothing is lost, nothing is repeated, and a list without repetitions is
      left alone. */
  lemma {:induction false} FirstOccurrencesCorrect<T>(s: seq<T>)
    ensures Distinct(FirstOccurrences(s))
    ensures forall x :: x in FirstOccurrences(s) <==> x in s
    ensures Distinct(s) ==> FirstOccurrences(s) == s
  {
    if s != [] {
      FirstOccurrencesCorrect(s[..|s| - 1]);
      assert s == s[..|s| - 1] + [s[|s| - 1]];
    }
  }

  lemma {:induction false} FirstOccurrencesOfPrefix<T>(s: seq<T>, i: nat)
    requires i <= |s|
    ensures FirstOccurrences(s[..i]) <= FirstOccurrences(s)
    decreases |s|
  {
    if i < |s| {
      FirstOccurrencesOfPrefix(s[..|s| - 1], i);
      assert s[..|s| - 1][..i] == s[..i];
    } else {
      assert s[..i] == s;
    }
  }

  lemma LastFirstOccurrence<T>(s: seq<T>, x: T)
    requires x !in s
    ensures FirstOccurrences(s + [x]) == FirstOccurrences(s) + [x]
  {
    assert (s + [x])[..|s|] == s && (s + [x])[|s|] == x;
  }

  lemma NextOfPrefix<T>(s: seq<T>, i: nat)
    requires i < |s|
    ensures s[..i + 1] == s[..i] + [s[i]]
  {
  }

  /** A first occurrence is kept behind those before it. */
  lemma FirstOccurrenceAt<T>(s: seq<T>, i: nat)
    requires i < |s| && s[i] !in s[..i]
    ensures FirstOccurrences(s[..i]) + [s[i]] == FirstOccurrences(s[..i + 1]) <= FirstOccurrences(s)
  {
    hide FirstOccurrences;
    FirstOccurrencesOfPrefix(s, i + 1);
    NextOfPrefix(s, i);
    LastFirstOccurrence(s[..i], s[i]);
  }

  /** The order of first occurrences is kept. */
  lemma FirstOccurrencesInOrder<T>(s: seq<T>, i: nat, j: nat)
    requires i < j < |s| && s[i] !in s[..i] && s[j] !in s[..j]
    ensures exists p, q :: 0 <= p < q < |FirstOccurrences(s)| && FirstOccurrences(s)[p] == s[i] && FirstOccurrences(s)[q] == s[j]
  {
    hide FirstOccurrences;
    var p, q := |FirstOccurrences(s[..i])|, |FirstOccurrences(s[..j])|;
    FirstOccurrenceAt(s, i);
    FirstOccurrenceAt(s, j);
    FirstOccurrencesOfPrefix(s[..j], i + 1);
    assert s[..j][..i + 1] == s[..i + 1];
    assert FirstOccurrences(s)[p] == s[i] && FirstOccurrences(s)[q] == s[j];
  }

  // ----- removeDuplicateLabelFilters -----

  function Keys(lib: Lib, fs: seq<LabelFilter>): (ks: seq<string>)
    ensures |ks| == |fs| && forall i | 0 <= i < |fs| :: ks[i] == Key(lib, fs[i])
  {
    seq(|fs|, i requires 0 <= i < |fs| => Key(lib, fs[i]))
  }

  /** The filters whose printed form does not occur earlier. */
  function WithoutRepeatedKeys(lib: Lib, fs: seq<LabelFilter>): (r: seq<LabelFilter>)
    ensures |r| <= |fs|
  {
    if fs == [] then []
    else
      var last := fs[|fs| - 1];
      var before := WithoutRepeatedKeys(lib, fs[..|fs| - 1]);
      if Key(lib, last) in Keys(lib, fs[..|fs| - 1]) then before else before + [last]
  }

  predicate AreByteFilters(fs: seq<LabelFilter>) { forall i | 0 <= i < |fs| :: IsByteFilter(fs[i]) }

  lemma KeyIsRepeated(lib: Lib, f: LabelFilter, fs: seq<LabelFilter>)
    requires QuotesFaithfully(lib) && IsByteFilter(f) && AreByteFilters(fs)
    ensures Key(lib, f) in Keys(lib, fs) <==> f in fs
  {
    hide Key, QuotesFaithfully, IsByteFilter;
    if Key(lib, f) in Keys(lib, fs) {
      var i :| 0 <= i < |fs| && Keys(lib, fs)[i] == Key(lib, f);
      KeyIsInjective(lib, fs[i], f);
      assert fs[i] in fs;
    }
    if f in fs {
      var i :| 0 <= i < |fs| && fs[i] == f;
      assert Keys(lib, fs)[i] == Key(lib, f);
    }
  }

  /** Comparing printed forms is comparing filters. */
  lemma {:induction false} RepeatedKeysAreRepeatedFilters(lib: Lib, fs: seq<LabelFilter>)
    requires QuotesFaithfully(lib) && AreByteFilters(fs)
    ensures WithoutRepeatedKeys(lib, fs) == FirstOccurrences(fs)
  {
    hide Key, Keys, QuotesFaithfully, IsByteFilter;
    if fs != [] {
      var n := |fs| - 1;
      RepeatedKeysAreRepeatedFilters(lib, fs[..n]);
      KeyIsRepeated(lib, fs[n], fs[..n]);
    }
  }

  /** The first filter is never removed. */
  lemma {:induction false} FirstFilterStays(lib: Lib, fs: seq<LabelFilter>)
    ensures fs != [] ==> WithoutRepeatedKeys(lib, fs) != [] && WithoutRepeatedKeys(lib, fs)[0] == fs[0]
  {
    if |fs| > 1 {
      FirstFilterStays(lib, fs[..|fs| - 1]);
    } else if |fs| == 1 {
      assert fs[..0] == [] && Keys(lib, fs[..0]) == [];
    }
  }

  /** A list that keeps its length is left alone. */
  lemma {:induction false} NothingRemoved(lib: Lib, fs: seq<LabelFilter>)
    requires |WithoutRepeatedKeys(lib, fs)| == |fs|
    ensures WithoutRepeatedKeys(lib, fs) == fs
  {
    hide Key, Keys;
    if fs != [] {
      NothingRemoved(lib, fs[..|fs| - 1]);
      assert fs == fs[..|fs| - 1] + [fs[|fs| - 1]];
    }
  }

  lemma NextFilter(lib: Lib, fs: seq<LabelFilter>, i: nat)
    requires i < |fs|
    ensures WithoutRepeatedKeys(lib, fs[..i + 1]) ==
            if Keys(lib, fs)[i] in Keys(lib, fs)[..i] then WithoutRepeatedKeys(lib, fs[..i])
            else WithoutRepeatedKeys(lib, fs[..i]) + [fs[i]]
  {
    assert fs[..i + 1][..i] == fs[..i] && Keys(lib, fs[..i]) == Keys(lib, fs)[..i];
  }

  /** removeDuplicateLabelFilters: the kept filters overwrite the front of the
      array while it is read; `n` is how many there are. */
  method RemoveDuplicateLabelFilters(lib: Lib, lfs: array<LabelFilter>) returns (n: nat)
    modifies lfs
    ensures n <= lfs.Length && lfs[..n] == WithoutRepeatedKeys(lib, old(lfs[..]))
    ensures QuotesFaithfully(lib) && AreByteFilters(old(lfs[..])) ==> lfs[..n] == FirstOccurrences(old(lfs[..]))
  {
    hide WithoutRepeatedKeys, Key;
    ghost var was, keys := lfs[..], Keys(lib, lfs[..]);
    var seen: set<string> := {};
    n := 0;
    for i := 0 to lfs.Length
      invariant n <= i
      invariant forall k | i <= k < lfs.Length :: lfs[k] == was[k]
      invariant lfs[..n] == WithoutRepeatedKeys(lib, was[..i])
      invariant forall x :: x in seen <==> x in keys[..i]
    {
      NextFilter(lib, was, i);
      assert keys[..i + 1] == keys[..i] + [keys[i]];
      var key := Key(lib, lfs[i]);
      if key in seen {
        continue;
      }
      seen := seen + {key};
      lfs[n] := lfs[i];
      n := n + 1;
    }
    assert was[..lfs.Length] == was;
    if QuotesFaithfully(lib) && AreByteFilters(was) {
      RepeatedKeysAreRepeatedFilters(lib, was);
    }
  }
}
