/** The punctuation test of src/utils/text.ts. */
module Text {

  /** `punctuations`: the six one-character strings that attach to the preceding word. */
  const Punctuations: seq<string> := [".", ",", "!", "?", ";", ":"]

  /** The characters of the six marks. */
  const PunctuationMarks: string := ".,!?;:"

  /**
   * `isPunctuation`: a one-character string listed in `Punctuations`, stated
   * on its single character (`PunctuationIsMembership` shows the two agree).
   */
  predicate IsPunctuation(s: string)
  {
    |s| == 1 && s[0] in PunctuationMarks
  }

  lemma PunctuationsAreSingleCharacters()
    ensures forall p :: p in Punctuations ==> |p| == 1
  {
  }

  /** Each listed mark is punctuation. */
  lemma ListedMarksArePunctuation()
    ensures IsPunctuation(".") && IsPunctuation(",") && IsPunctuation("!")
    ensures IsPunctuation("?") && IsPunctuation(";") && IsPunctuation(":")
  {
  }

  /** No string of another length is punctuation, whatever its characters. */
  lemma OtherLengthsAreNotPunctuation(s: string)
    requires |s| != 1
    ensures !IsPunctuation(s)
  {
  }

  /** Single characters outside the list are not punctuation. */
  lemma UnlistedCharactersAreNotPunctuation()
    ensures !IsPunctuation("-") && !IsPunctuation("a") && !IsPunctuation("...") && !IsPunctuation("")
  {
  }

  /**
   * The test on the single character is exactly membership of the string in
   * `Punctuations`, as `punctuations.indexOf(char) >= 0` checks; the length
   * test is redundant.
   */
  lemma PunctuationIsMembership(s: string)
    ensures IsPunctuation(s) <==> s in Punctuations
  {
    if IsPunctuation(s) {
      assert s == [s[0]];
    }
  }
}
