/**
 * The Gemini page script's reply parser (gemini-content.js): the model's
 * answer text is cut into numbered items, else into lines, else kept whole,
 * and at most four suggestions are handed back.
 */
module GeminiContent {
  import opened Text
  import opened Seqs
  import opened Splitting

  /** `line.trim().length > 0`. */
  predicate NonBlank(s: string) { Trim(s) != "" }

  /** `pieces.map(r => r.trim())`. */
  function TrimAll(pieces: seq<string>): (r: seq<string>)
    ensures |r| == |pieces|
    ensures forall i :: 0 <= i < |r| ==> r[i] == Trim(pieces[i])
  {
    seq(|pieces|, i requires 0 <= i < |pieces| => Trim(pieces[i]))
  }

  /** The non-blank pieces of `text.split(sep)`. */
  function FilledPieces(sep: Separator, text: string): seq<string> {
    Keep(Split(sep, text), NonBlank)
  }

  /** `parseResponses`: numbered items, else lines, else the whole text trimmed. */
  function ParseResponses(text: string): (r: seq<string>)
    ensures |r| >= 1
  {
    var numbered := FilledPieces(NumberedItem, text);
    if |numbered| >= 2 then TrimAll(numbered)
    else
      var lines := FilledPieces(Newlines, text);
      if |lines| >= 2 then TrimAll(lines)
      else [Trim(text)]
  }

  /** `getGeminiResponses`: the parsed suggestions, at most four of them. */
  function GeminiSuggestions(text: string): (r: seq<string>)
    ensures 1 <= |r| <= 4
  {
    Take(ParseResponses(text), 4)
  }

  /** A clean suggestion: non-empty, without white space at either end. */
  predicate IsClean(s: string) {
    s != "" && !IsSpace(s[0]) && !IsSpace(s[|s| - 1])
  }

  lemma TrimAllFilledIsClean(pieces: seq<string>)
    requires forall i :: 0 <= i < |pieces| ==> NonBlank(pieces[i])
    ensures forall i :: 0 <= i < |TrimAll(pieces)| ==> IsClean(TrimAll(pieces)[i])
  {
  }

  /**
   * The parser's outcome in one statement: either two or more clean
   * suggestions taken from the numbered items or from the lines (numbered
   * items first), or exactly the whole text trimmed, which may be empty.
   */
  lemma ParseResponsesShape(text: string)
    ensures var r := ParseResponses(text);
      (|r| >= 2 && forall i :: 0 <= i < |r| ==> IsClean(r[i]))
      || r == [Trim(text)]
    ensures |FilledPieces(NumberedItem, text)| >= 2 ==>
      ParseResponses(text) == TrimAll(FilledPieces(NumberedItem, text))
    ensures |FilledPieces(NumberedItem, text)| < 2 && |FilledPieces(Newlines, text)| >= 2 ==>
      ParseResponses(text) == TrimAll(FilledPieces(Newlines, text))
    ensures |FilledPieces(NumberedItem, text)| < 2 && |FilledPieces(Newlines, text)| < 2 ==>
      ParseResponses(text) == [Trim(text)]
  {
    var numbered := FilledPieces(NumberedItem, text);
    var lines := FilledPieces(Newlines, text);
    if |numbered| >= 2 {
      TrimAllFilledIsClean(numbered);
    } else if |lines| >= 2 {
      TrimAllFilledIsClean(lines);
    }
  }

  lemma FilledPiecesOccur(sep: Separator, text: string)
    ensures forall i :: 0 <= i < |FilledPieces(sep, text)| ==> Contains(text, FilledPieces(sep, text)[i])
  {
    PiecesOccurIn(sep, text, 0, 0);
  }

  lemma TrimmedPiecesOccur(text: string, pieces: seq<string>)
    requires forall i :: 0 <= i < |pieces| ==> Contains(text, pieces[i])
    ensures forall i :: 0 <= i < |TrimAll(pieces)| ==> Contains(text, TrimAll(pieces)[i])
  {
    forall i | 0 <= i < |pieces| ensures Contains(text, Trim(pieces[i])) {
      TrimIsInfix(pieces[i]);
      ContainsTransitive(text, pieces[i], Trim(pieces[i]));
    }
  }

  /** Every suggestion is text that Gemini actually wrote: it occurs in the answer. */
  lemma SuggestionsOccurInAnswer(text: string)
    ensures forall i :: 0 <= i < |GeminiSuggestions(text)| ==> Contains(text, GeminiSuggestions(text)[i])
  {
    var numbered := FilledPieces(NumberedItem, text);
    var lines := FilledPieces(Newlines, text);
    if |numbered| >= 2 {
      FilledPiecesOccur(NumberedItem, text);
      TrimmedPiecesOccur(text, numbered);
    } else if |lines| >= 2 {
      FilledPiecesOccur(Newlines, text);
      TrimmedPiecesOccur(text, lines);
    } else {
      TrimIsInfix(text);
    }
  }

  /** A single unnumbered line is returned as one suggestion, trimmed. */
  lemma SingleLineKeptWhole(text: string)
    requires NoMatchIn(NumberedItem, text, 0, |text|) && '\n' !in text
    ensures ParseResponses(text) == [Trim(text)]
  {
    NoSeparatorNoSplit(NumberedItem, text);
    forall i | 0 <= i < |text| ensures MatchLen(Newlines, text, i) == 0 {
      assert text[i] != '\n';
    }
    NoSeparatorNoSplit(Newlines, text);
  }
}
