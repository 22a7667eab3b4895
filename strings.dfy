/**
 * The string operations the line scanner uses from Rust's standard library:
 * str::trim, the first piece of str::split for a character or for "//",
 * and str::replace of a set of characters by the empty string.
 */
module Strings {

  /** char::is_whitespace: the characters with the Unicode White_Space property. */
  predicate IsWhitespace(c: char) {
    || '\t' <= c <= '\r' || c == ' ' || c == '\U{85}' || c == '\U{A0}' || c == '\U{1680}'
    || '\U{2000}' <= c <= '\U{200A}' || c == '\U{2028}' || c == '\U{2029}' || c == '\U{202F}'
    || c == '\U{205F}' || c == '\U{3000}'
  }

  predicate AllWhitespace(s: string) {
    forall i :: 0 <= i < |s| ==> IsWhitespace(s[i])
  }

  /** The index of the first non-whitespace character of s at or after i, or |s|. */
  function TrimStartIndex(s: string, i: nat): (k: nat)
    requires i <= |s|
    ensures i <= k <= |s|
    decreases |s| - i
  {
    if i < |s| && IsWhitespace(s[i]) then TrimStartIndex(s, i + 1) else i
  }

  /** TrimStartIndex stops at the first character after i that is not whitespace. */
  lemma {:induction false} TrimStartFacts(s: string, i: nat)
    requires i <= |s|
    ensures var k := TrimStartIndex(s, i);
            && (forall j :: i <= j < k ==> IsWhitespace(s[j]))
            && (k < |s| ==> !IsWhitespace(s[k]))
    decreases |s| - i
  {
    if i < |s| && IsWhitespace(s[i]) {
      TrimStartFacts(s, i + 1);
    }
  }

  /** The end of s[lo..hi] once its trailing whitespace is dropped. */
  function TrimEndIndex(s: string, lo: nat, hi: nat): (k: nat)
    requires lo <= hi <= |s|
    ensures lo <= k <= hi
    decreases hi
  {
    if lo < hi && IsWhitespace(s[hi - 1]) then TrimEndIndex(s, lo, hi - 1) else hi
  }

  /** TrimEndIndex stops after the last character before hi that is not whitespace. */
  lemma {:induction false} TrimEndFacts(s: string, lo: nat, hi: nat)
    requires lo <= hi <= |s|
    ensures var k := TrimEndIndex(s, lo, hi);
            && (forall j :: k <= j < hi ==> IsWhitespace(s[j]))
            && (lo < k ==> !IsWhitespace(s[k - 1]))
    decreases hi
  {
    if lo < hi && IsWhitespace(s[hi - 1]) {
      TrimEndFacts(s, lo, hi - 1);
    }
  }

  /** str::trim: s without the whitespace at either end. */
  function Trim(s: string): (r: string)
    ensures |r| <= |s|
  {
    var i := TrimStartIndex(s, 0);
    s[i..TrimEndIndex(s, i, |s|)]
  }

  /**
   * Trim gives the infix of s left once whitespace is removed from both
   * ends: it neither starts nor ends with whitespace, and it is empty
   * exactly when s is all whitespace.
   */
  lemma {:induction false} TrimSpec(s: string)
    ensures var r := Trim(s);
            && (exists i :: 0 <= i && i + |r| <= |s| && r == s[i..i + |r|]
                            && AllWhitespace(s[..i]) && AllWhitespace(s[i + |r|..]))
            && (r != [] ==> !IsWhitespace(r[0]) && !IsWhitespace(r[|r| - 1]))
            && (r == [] <==> AllWhitespace(s))
  {
    var i := TrimStartIndex(s, 0);
    var k := TrimEndIndex(s, i, |s|);
    TrimEnds(s, i, k);
    var r := s[i..k];
    assert Trim(s) == r && i + |r| == k;
    assert AllWhitespace(s[..i]) && AllWhitespace(s[i + |r|..]);
  }

  /** The cut points of Trim leave only whitespace outside s[i..k]. */
  lemma {:induction false} TrimEnds(s: string, i: nat, k: nat)
    requires i == TrimStartIndex(s, 0) && k == TrimEndIndex(s, i, |s|)
    ensures i <= k <= |s|
    ensures AllWhitespace(s[..i]) && AllWhitespace(s[k..])
    ensures i < k ==> !IsWhitespace(s[i]) && !IsWhitespace(s[k - 1])
    ensures i == k <==> AllWhitespace(s)
  {
    TrimStartFacts(s, 0);
    TrimEndFacts(s, i, |s|);
    if i == k {
      forall j | 0 <= j < |s| ensures IsWhitespace(s[j]) {
        assert s[j] == s[..i][j];
      }
    }
  }

  /** A comment marker "//" starts at index i of s. */
  predicate CommentAt(s: string, i: int) {
    0 <= i && i + 1 < |s| && s[i] == '/' && s[i + 1] == '/'
  }

  /** The index of the first "//" in s at or after i, or |s| when there is none. */
  function FindComment(s: string, i: nat): (k: nat)
    requires i <= |s|
    ensures i <= k <= |s|
    decreases |s| - i
  {
    if i == |s| then |s|
    else if CommentAt(s, i) then i
    else FindComment(s, i + 1)
  }

  /** FindComment stops at the first "//" at or after i. */
  lemma {:induction false} FindCommentFacts(s: string, i: nat)
    requires i <= |s|
    ensures var k := FindComment(s, i);
            && (k < |s| ==> CommentAt(s, k))
            && (forall j :: i <= j < k ==> !CommentAt(s, j))
    decreases |s| - i
  {
    if i < |s| && !CommentAt(s, i) {
      FindCommentFacts(s, i + 1);
    }
  }

  /** The first piece of s.split("//"): everything before the first "//". */
  function BeforeComment(s: string): (r: string)
    ensures |r| <= |s| && r == s[..|r|]
  {
    s[..FindComment(s, 0)]
  }

  /** BeforeComment keeps the prefix of s up to its first "//", or all of s when it has none. */
  lemma {:induction false} BeforeCommentSpec(s: string)
    ensures var r := BeforeComment(s);
            && |r| <= |s| && r == s[..|r|]
            && (forall j :: 0 <= j < |r| ==> !CommentAt(s, j))
            && (|r| < |s| ==> CommentAt(s, |r|))
  {
    FindCommentFacts(s, 0);
  }

  /** The index of the first c in s, or |s| when c does not occur. */
  function IndexOf(s: string, c: char): (k: nat)
    ensures k <= |s|
    ensures k < |s| ==> s[k] == c
    ensures forall j :: 0 <= j < k ==> s[j] != c
  {
    if s == [] then 0
    else if s[0] == c then 0
    else 1 + IndexOf(s[1..], c)
  }

  /** The first piece of s.split(c): everything before the first c. */
  function Before(s: string, c: char): (r: string)
    ensures |r| <= |s| && r == s[..|r|] && c !in r
    ensures |r| < |s| ==> s[|r|] == c
  {
    s[..IndexOf(s, c)]
  }

  /** A character that str::replace(&['@', '(', ')'][..], "") deletes. */
  predicate IsSymbolMark(c: char) {
    c == '@' || c == '(' || c == ')'
  }

  /** Deletes every '@', '(' and ')' from s and keeps everything else in order. */
  function RemoveMarks(s: string): (r: string)
    ensures |r| <= |s|
    ensures forall i :: 0 <= i < |r| ==> !IsSymbolMark(r[i])
    ensures (forall i :: 0 <= i < |s| ==> !IsSymbolMark(s[i])) ==> r == s
  {
    if s == [] then []
    else (if IsSymbolMark(s[0]) then [] else [s[0]]) + RemoveMarks(s[1..])
  }

  /** A single character survives exactly when it is not a mark. */
  lemma {:induction false} RemoveMarksChar(c: char)
    ensures RemoveMarks([c]) == if IsSymbolMark(c) then [] else [c]
  {
    assert [c][1..] == [];
  }

  /** Deleting marks works piece by piece. */
  lemma {:induction false} RemoveMarksAppend(a: string, b: string)
    ensures RemoveMarks(a + b) == RemoveMarks(a) + RemoveMarks(b)
  {
    if a == [] {
      assert a + b == b;
    } else {
      assert (a + b)[1..] == a[1..] + b;
      RemoveMarksAppend(a[1..], b);
    }
  }
}
