/**
 * `String.prototype.split` with the four regular expressions the extension
 * uses, each written out as an explicit recogniser. A recogniser reports the
 * length of the match that starts exactly at a position (0: none); `Split`
 * then follows the split algorithm of ECMAScript: scan left to right for the
 * first position where the separator matches, cut there, resume after the
 * match, and keep the text after the last match as the final piece.
 */
module Splitting {
  import opened Text

  datatype Separator =
    | Spaces              // /\s+/
    | NumberedItem        // /\d+\.\s+/
    | NumberOrNewlines    // /\d+\.\s|\n+/
    | Newlines            // /\n+/

  predicate IsNewline(c: char) { c == '\n' }

  /** The length of the longest run starting at q of characters that pass `member`. */
  function Run(s: string, q: nat, member: char -> bool): (n: nat)
    requires q <= |s|
    ensures q + n <= |s|
    ensures forall i :: q <= i < q + n ==> member(s[i])
    ensures q + n == |s| || !member(s[q + n])
    decreases |s| - q
  {
    if q < |s| && member(s[q]) then 1 + Run(s, q + 1, member) else 0
  }

  /** Digits, a '.', then one white-space character: the `\d+\.\s` prefix shared by two separators. */
  function NumberLen(s: string, q: nat): (n: nat)
    requires q <= |s|
    ensures q + n <= |s|
  {
    var d := Run(s, q, IsDigit);
    if d > 0 && q + d + 1 < |s| && s[q + d] == '.' && IsSpace(s[q + d + 1]) then d + 2 else 0
  }

  /** The length of the separator match that starts at q, or 0 when none does. */
  function MatchLen(sep: Separator, s: string, q: nat): (n: nat)
    requires q < |s|
    ensures q + n <= |s|
  {
    match sep
    case Spaces => Run(s, q, IsSpace)
    case Newlines => Run(s, q, IsNewline)
    case NumberedItem =>
      var n := NumberLen(s, q);
      if n == 0 then 0 else n - 1 + Run(s, q + n - 1, IsSpace)
    case NumberOrNewlines =>
      var n := NumberLen(s, q);
      if n > 0 then n else Run(s, q, IsNewline)
  }

  /** The pieces of s[p..], with no match starting in [p, q). */
  function SplitFrom(sep: Separator, s: string, p: nat, q: nat): (pieces: seq<string>)
    requires p <= q <= |s|
    ensures |pieces| >= 1
    decreases |s| - q
  {
    if q == |s| then [s[p..]]
    else
      var n := MatchLen(sep, s, q);
      if n == 0 then SplitFrom(sep, s, p, q + 1)
      else [s[p..q]] + SplitFrom(sep, s, q + n, q + n)
  }

  /** `s.split(sep)`. */
  function Split(sep: Separator, s: string): (pieces: seq<string>)
    ensures |pieces| >= 1
  {
    SplitFrom(sep, s, 0, 0)
  }

  predicate NoMatchIn(sep: Separator, s: string, lo: nat, hi: nat)
    requires hi <= |s|
  {
    forall i :: lo <= i < hi ==> MatchLen(sep, s, i) == 0
  }

  /** Skipping positions where nothing matches does not change the pieces. */
  lemma {:induction false} SkipUnmatched(sep: Separator, s: string, p: nat, q: nat, r: nat)
    requires p <= q <= r <= |s| && NoMatchIn(sep, s, q, r)
    ensures SplitFrom(sep, s, p, q) == SplitFrom(sep, s, p, r)
    decreases r - q
  {
    if q < r {
      assert MatchLen(sep, s, q) == 0;
      assert NoMatchIn(sep, s, q + 1, r);
      SkipUnmatched(sep, s, p, q + 1, r);
    }
  }

  /** Text in which the separator never matches comes back whole. */
  lemma NoSeparatorNoSplit(sep: Separator, s: string)
    requires NoMatchIn(sep, s, 0, |s|)
    ensures Split(sep, s) == [s]
  {
    SkipUnmatched(sep, s, 0, 0, |s|);
    assert s[0..] == s;
  }

  /** Every piece is a slice of the input, so it occurs in it. */
  lemma {:induction false} PiecesOccurIn(sep: Separator, s: string, p: nat, q: nat)
    requires p <= q <= |s|
    ensures forall i :: 0 <= i < |SplitFrom(sep, s, p, q)| ==> Contains(s, SplitFrom(sep, s, p, q)[i])
    decreases |s| - q
  {
    var pieces := SplitFrom(sep, s, p, q);
    if q == |s| {
      assert s[p..|s|] == s[p..];
      ContainsAt(s, s[p..], p);
    } else {
      var n := MatchLen(sep, s, q);
      if n == 0 {
        PiecesOccurIn(sep, s, p, q + 1);
      } else {
        var rest := SplitFrom(sep, s, q + n, q + n);
        PiecesOccurIn(sep, s, q + n, q + n);
        assert s[p..p + |s[p..q]|] == s[p..q];
        ContainsAt(s, s[p..q], p);
        AllOccurCons(s, s[p..q], rest);
      }
    }
  }

  lemma AllOccurCons(s: string, first: string, rest: seq<string>)
    requires Contains(s, first) && forall i :: 0 <= i < |rest| ==> Contains(s, rest[i])
    ensures forall i :: 0 <= i < |[first] + rest| ==> Contains(s, ([first] + rest)[i])
  {
    forall i | 0 <= i < |[first] + rest| ensures Contains(s, ([first] + rest)[i]) {
      if i > 0 {
        assert ([first] + rest)[i] == rest[i - 1];
      }
    }
  }

  /** A newline always starts a match of the separators that split on newline runs. */
  predicate SplitsOnNewlines(sep: Separator) {
    sep == Newlines || sep == NumberOrNewlines
  }

  lemma NewlineMatches(sep: Separator, s: string, q: nat)
    requires SplitsOnNewlines(sep) && q < |s| && s[q] == '\n'
    ensures MatchLen(sep, s, q) > 0
  {
    assert Run(s, q, IsDigit) == 0;
  }

  /** No piece of a split on newline runs contains a newline. */
  lemma {:induction false} PiecesHaveNoNewline(sep: Separator, s: string, p: nat, q: nat)
    requires SplitsOnNewlines(sep) && p <= q <= |s|
    requires forall i :: p <= i < q ==> s[i] != '\n'
    ensures forall i :: 0 <= i < |SplitFrom(sep, s, p, q)| ==> '\n' !in SplitFrom(sep, s, p, q)[i]
    decreases |s| - q
  {
    if q < |s| {
      var n := MatchLen(sep, s, q);
      if n == 0 {
        if s[q] == '\n' { NewlineMatches(sep, s, q); }
        PiecesHaveNoNewline(sep, s, p, q + 1);
      } else {
        PiecesHaveNoNewline(sep, s, q + n, q + n);
        assert forall i :: 0 <= i < |s[p..q]| ==> s[p..q][i] == s[p + i];
      }
    } else {
      assert forall i :: 0 <= i < |s[p..]| ==> s[p..][i] == s[p + i];
    }
  }

  lemma SplitHasNoNewline(sep: Separator, s: string)
    requires SplitsOnNewlines(sep)
    ensures forall i :: 0 <= i < |Split(sep, s)| ==> '\n' !in Split(sep, s)[i]
  {
    PiecesHaveNoNewline(sep, s, 0, 0);
  }

  // ---------------------------------------------------------------------------
  // Words: `name.split(/\s+/)` on a trimmed name

  /** A trimmed, non-empty text: no white space at either end. */
  predicate IsTrimmed(s: string) {
    s != "" && !IsSpace(s[0]) && !IsSpace(s[|s| - 1])
  }

  predicate IsWord(w: string) {
    w != "" && forall i :: 0 <= i < |w| ==> !IsSpace(w[i])
  }

  lemma {:induction false} WordPieces(s: string, p: nat, q: nat)
    requires p <= q < |s| && !IsSpace(s[p]) && !IsSpace(s[|s| - 1])
    requires forall i :: p <= i < q ==> !IsSpace(s[i])
    ensures forall i :: 0 <= i < |SplitFrom(Spaces, s, p, q)| ==> IsWord(SplitFrom(Spaces, s, p, q)[i])
    decreases |s| - q
  {
    var n := MatchLen(Spaces, s, q);
    if n == 0 {
      if q + 1 == |s| {
        assert forall i :: 0 <= i < |s[p..]| ==> s[p..][i] == s[p + i];
      } else {
        WordPieces(s, p, q + 1);
      }
    } else {
      assert q != p;
      assert q + n < |s|;
      WordPieces(s, q + n, q + n);
      assert forall i :: 0 <= i < |s[p..q]| ==> s[p..q][i] == s[p + i];
    }
  }

  /** The words of a trimmed, non-empty name: at least one, none empty, none holding white space. */
  lemma WordsAreWords(s: string)
    requires IsTrimmed(s)
    ensures forall i :: 0 <= i < |Split(Spaces, s)| ==> IsWord(Split(Spaces, s)[i])
  {
    WordPieces(s, 0, 0);
  }

  lemma WordHasNoMatch(s: string, lo: nat, hi: nat)
    requires lo <= hi <= |s| && forall i :: lo <= i < hi ==> !IsSpace(s[i])
    ensures NoMatchIn(Spaces, s, lo, hi)
  {
  }

  /** Two words with one space between them split back into the two words. */
  lemma SplitTwoWords(first: string, last: string)
    requires IsWord(first) && IsWord(last)
    ensures Split(Spaces, first + " " + last) == [first, last]
  {
    var s := first + " " + last;
    var k := |first|;
    WordHasNoMatch(s, 0, k);
    SkipUnmatched(Spaces, s, 0, 0, k);
    assert MatchLen(Spaces, s, k) == 1 by {
      assert s[k] == ' ';
      assert s[k + 1] == last[0];
    }
    WordHasNoMatch(s, k + 1, |s|);
    SkipUnmatched(Spaces, s, k + 1, k + 1, |s|);
    assert s[..k] == first;
    assert s[k + 1..] == last;
  }

  /** A single word splits into itself. */
  lemma SplitOneWord(w: string)
    requires IsWord(w)
    ensures Split(Spaces, w) == [w]
  {
    WordHasNoMatch(w, 0, |w|);
    NoSeparatorNoSplit(Spaces, w);
  }
}
