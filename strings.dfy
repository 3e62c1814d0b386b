/**
  The JavaScript string primitives the messenger page relies on: `trim`,
  `toLowerCase`, `includes`, `split` and `join`. Strings are sequences of
  Unicode scalar values; case mapping is a per-character function supplied
  by the caller.
 */
module Strings {

  /** The code points of ECMA-262's WhiteSpace production (section 12.2):
      TAB, VT, FF, ZWNBSP and the Unicode "Zs" space separators. */
  const WhiteSpaceCodePoints: set<char> := {
    '\t', '\U{B}', '\U{C}', '\U{FEFF}',
    ' ', '\U{A0}', '\U{1680}',
    '\U{2000}', '\U{2001}', '\U{2002}', '\U{2003}', '\U{2004}', '\U{2005}',
    '\U{2006}', '\U{2007}', '\U{2008}', '\U{2009}', '\U{200A}',
    '\U{202F}', '\U{205F}', '\U{3000}'
  }

  /** The code points of ECMA-262's LineTerminator production (section
      12.3): LF, CR, LS and PS. */
  const LineTerminatorCodePoints: set<char> := {'\n', '\r', '\U{2028}', '\U{2029}'}

  /** The test String.prototype.trim applies to each end character: white
      space or a line terminator. */
  predicate IsWhiteSpace(c: char) {
    || c == '\t' || c == '\U{B}' || c == '\U{C}' || c == '\U{FEFF}'
    || c == ' ' || c == '\U{A0}' || c == '\U{1680}'
    || ('\U{2000}' <= c <= '\U{200A}')
    || c == '\U{202F}' || c == '\U{205F}' || c == '\U{3000}'
    || c == '\n' || c == '\r' || c == '\U{2028}' || c == '\U{2029}'
  }

  /** `IsWhiteSpace` holds of exactly the code points of the WhiteSpace and
      LineTerminator productions. */
  lemma WhiteSpaceIsEcmaSets(c: char)
    ensures IsWhiteSpace(c) <==> c in WhiteSpaceCodePoints || c in LineTerminatorCodePoints
  {
  }

  /** Every character of `s` is white space (vacuously true of ""). */
  predicate IsBlank(s: string) {
    forall i :: 0 <= i < |s| ==> IsWhiteSpace(s[i])
  }

  /** `r` is the slice of `s` starting at `lo`, and everything of `s` outside
      that slice is white space. */
  ghost predicate TrimmedAt(s: string, r: string, lo: nat) {
    && lo + |r| <= |s|
    && r == s[lo..lo + |r|]
    && (forall i :: 0 <= i < lo ==> IsWhiteSpace(s[i]))
    && (forall i :: lo + |r| <= i < |s| ==> IsWhiteSpace(s[i]))
  }

  /** A white-space character cut off the front of `s` lies outside the slice
      that is left, and `s` is blank exactly when the rest is. */
  lemma TrimmedAfterFirst(s: string, r: string)
    requires s != [] && IsWhiteSpace(s[0])
    requires exists lo: nat :: TrimmedAt(s[1..], r, lo)
    ensures exists lo: nat :: TrimmedAt(s, r, lo)
    ensures IsBlank(s) <==> IsBlank(s[1..])
  {
    var lo: nat :| TrimmedAt(s[1..], r, lo);
    assert s[1..][lo..lo + |r|] == s[lo + 1..lo + 1 + |r|];
    assert TrimmedAt(s, r, lo + 1);
  }

  /** A white-space character cut off the back of `s` lies outside the slice
      that is left, and `s` is blank exactly when the rest is. */
  lemma TrimmedBeforeLast(s: string, init: string, r: string)
    requires s != [] && IsWhiteSpace(s[|s| - 1]) && init == s[..|s| - 1]
    requires exists lo: nat :: TrimmedAt(init, r, lo)
    ensures exists lo: nat :: TrimmedAt(s, r, lo)
    ensures IsBlank(s) <==> IsBlank(init)
  {
    var lo: nat :| TrimmedAt(init, r, lo);
    assert init[lo..lo + |r|] == s[lo..lo + |r|];
    assert TrimmedAt(s, r, lo);
  }

  /** String.prototype.trim: a slice of `s` that neither starts nor ends with
      white space, everything cut off on either side being white space; it
      is empty (falsy) exactly when `s` is blank. */
  function Trim(s: string): (r: string)
    ensures exists lo: nat :: TrimmedAt(s, r, lo)
    ensures r == [] <==> IsBlank(s)
    ensures r != [] ==> !IsWhiteSpace(r[0]) && !IsWhiteSpace(r[|r| - 1])
  {
    if s == [] then
      assert TrimmedAt(s, s, 0);
      s
    else if IsWhiteSpace(s[0]) then
      var r := Trim(s[1..]);
      TrimmedAfterFirst(s, r);
      r
    else if IsWhiteSpace(s[|s| - 1]) then
      var r := Trim(s[..|s| - 1]);
      TrimmedBeforeLast(s, s[..|s| - 1], r);
      r
    else
      assert TrimmedAt(s, s, 0);
      s
  }

  /** Two slices of `s` that each leave only white space outside them,
      neither start nor end with white space, and are empty together, are
      the same slice. */
  lemma TrimmedUnique(s: string, r1: string, lo1: nat, r2: string, lo2: nat)
    requires TrimmedAt(s, r1, lo1) && TrimmedAt(s, r2, lo2)
    requires r1 == [] <==> r2 == []
    requires r1 != [] ==> !IsWhiteSpace(r1[0]) && !IsWhiteSpace(r1[|r1| - 1])
    requires r2 != [] ==> !IsWhiteSpace(r2[0]) && !IsWhiteSpace(r2[|r2| - 1])
    ensures r1 == r2
  {
    if r1 != [] {
      assert s[lo1] == r1[0] && s[lo2] == r2[0];
      assert s[lo1 + |r1| - 1] == r1[|r1| - 1];
      assert s[lo2 + |r2| - 1] == r2[|r2| - 1];
    }
  }

  /** The contract of `Trim` determines its result: any slice of `s` that
      leaves only white space outside it, is empty exactly when `s` is blank,
      and neither starts nor ends with white space, is `Trim(s)`. */
  lemma TrimDetermined(s: string, r: string, lo: nat)
    requires TrimmedAt(s, r, lo)
    requires r == [] <==> IsBlank(s)
    requires r != [] ==> !IsWhiteSpace(r[0]) && !IsWhiteSpace(r[|r| - 1])
    ensures r == Trim(s)
  {
    var q := Trim(s);
    var lo': nat :| TrimmedAt(s, q, lo');
    TrimmedUnique(s, r, lo, q, lo');
  }

  /** Trimming a trimmed string changes nothing. */
  lemma TrimIdempotent(s: string)
    ensures Trim(Trim(s)) == Trim(s)
  {
  }

  /** String.prototype.toLowerCase, with the case mapping given one
      character at a time. */
  function LowerCase(s: string, lower: char -> char): (r: string)
    ensures |r| == |s|
  {
    seq(|s|, i requires 0 <= i < |s| => lower(s[i]))
  }

  /** `t` occurs in `s` starting at index `i`. */
  ghost predicate OccursAt(s: string, t: string, i: nat) {
    i + |t| <= |s| && s[i..i + |t|] == t
  }

  /** Moving the start of `s` one character on moves every occurrence one
      index back. */
  lemma OccursAfterFirst(s: string, t: string)
    requires s != []
    ensures forall i: nat :: OccursAt(s, t, i + 1) <==> OccursAt(s[1..], t, i)
  {
    forall i: nat
      ensures OccursAt(s, t, i + 1) <==> OccursAt(s[1..], t, i)
    {
      if i + 1 + |t| <= |s| {
        assert s[1..][i..i + |t|] == s[i + 1..i + 1 + |t|];
      }
    }
  }

  /** String.prototype.includes: `t` is a prefix of `s` or of one of its
      suffixes, that is, `t` occurs at some index of `s`. The empty string
      occurs in every string. */
  predicate Includes(s: string, t: string)
    ensures Includes(s, t) <==> exists i: nat :: OccursAt(s, t, i)
  {
    if t <= s then
      assert OccursAt(s, t, 0);
      true
    else if s == [] then
      assert forall i: nat :: !OccursAt(s, t, i);
      false
    else
      OccursAfterFirst(s, t);
      assert !OccursAt(s, t, 0);
      assert forall i: nat :: OccursAt(s, t, i) ==> i > 0 && OccursAt(s[1..], t, i - 1);
      Includes(s[1..], t)
  }

  /** Array.prototype.join: the parts with one `sep` between neighbours. */
  function Join(parts: seq<string>, sep: char): string {
    if |parts| == 0 then ""
    else if |parts| == 1 then parts[0]
    else parts[0] + [sep] + Join(parts[1..], sep)
  }

  /** String.prototype.split with a one-character separator: the maximal
      runs between separators, empty runs included, so that there is always
      one more part than there are separators and joining the parts back
      restores the input. */
  function Split(s: string, sep: char): (parts: seq<string>)
    ensures |parts| >= 1
    ensures forall p <- parts :: sep !in p
    ensures Join(parts, sep) == s
  {
    if s == [] then [""]
    else
      var rest := Split(s[1..], sep);
      if s[0] == sep then [""] + rest
      else [[s[0]] + rest[0]] + rest[1..]
  }

  /** Splitting a string that has no separator in front of a first
      separator peels off that first part. */
  lemma {:induction false} SplitAtFirstSep(p: string, sep: char, t: string)
    requires sep !in p
    ensures Split(p + [sep] + t, sep) == [p] + Split(t, sep)
  {
    var s := p + [sep] + t;
    if p != [] {
      assert s[0] == p[0] != sep;
      assert s[1..] == p[1..] + [sep] + t;
      SplitAtFirstSep(p[1..], sep, t);
      var rest := Split(s[1..], sep);
      assert rest == [p[1..]] + Split(t, sep);
      assert Split(s, sep) == [[s[0]] + rest[0]] + rest[1..];
      assert [p[0]] + p[1..] == p;
    } else {
      assert s[1..] == t;
    }
  }

  /** A string without separators splits into itself alone. */
  lemma SplitNoSep(p: string, sep: char)
    requires sep !in p
    ensures Split(p, sep) == [p]
  {
  }

  /** The other half of the round trip: separator-free parts survive a
      join followed by a split. */
  lemma {:induction false} SplitJoin(parts: seq<string>, sep: char)
    requires |parts| >= 1
    requires forall p <- parts :: sep !in p
    ensures Split(Join(parts, sep), sep) == parts
  {
    if |parts| == 1 {
      SplitNoSep(parts[0], sep);
    } else {
      SplitJoin(parts[1..], sep);
      SplitAtFirstSep(parts[0], sep, Join(parts[1..], sep));
    }
  }
}
