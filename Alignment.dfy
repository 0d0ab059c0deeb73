/**
 * `createContent` of src/components/Editor/Editor.tsx: flattening a word list
 * into the text of one Content node and building the character-to-time
 * alignment (one Timing per non-punctuation word).
 *
 * The loop is specified by the prefix functions `TextUpTo` and `TimingsUpTo`
 * (the text and timings after the first `n` words); the lemmas below state
 * what those prefixes mean: where each word lands in the text, which words
 * get a timing, and that the character spans are ordered and in bounds.
 */
module Alignment {
  import opened Ranges
  import opened Models
  import Text

  datatype CharRange = CharRange(start: int, end: int)
  {
    /** The same span as a numeric range, for `Range.contains`. */
    function AsRange(): Range
    {
      Range(start as real, end as real)
    }
  }

  /** The audio span of one word and the characters it occupies in the text. */
  datatype Timing = Timing(chars: CharRange, time: Range)

  /** A Content leaf: flattened text, its alignment and the editable flag. */
  datatype Content = Content(timings: seq<Timing>, text: string, editable: bool)

  predicate IsPunct(w: Word)
  {
    Text.IsPunctuation(w.text)
  }

  /** `next && isPunctuation(next.text)` at position `i`. */
  predicate NextIsPunct(words: seq<Word>, i: nat)
    requires i < |words|
  {
    i + 1 < |words| && IsPunct(words[i + 1])
  }

  /** What follows word `i`: a space unless it is the last word or the next one is punctuation. */
  function Separator(words: seq<Word>, i: nat): string
    requires i < |words|
  {
    if i + 1 < |words| && !IsPunct(words[i + 1]) then " " else ""
  }

  /** The text after the loop has handled the first `n` words. */
  function TextUpTo(words: seq<Word>, n: nat): string
    requires n <= |words|
  {
    if n == 0 then "" else TextUpTo(words, n - 1) + words[n - 1].text + Separator(words, n - 1)
  }

  /**
   * The index in the text where word `i` begins: the lengths of the words
   * before it and of their separators (`OffsetIsLength` shows this is the
   * length of the text built so far).
   */
  function Offset(words: seq<Word>, i: nat): nat
    requires i <= |words|
  {
    if i == 0 then 0 else Offset(words, i - 1) + |words[i - 1].text| + |Separator(words, i - 1)|
  }

  lemma {:induction false} OffsetIsLength(words: seq<Word>, i: nat)
    requires i <= |words|
    ensures Offset(words, i) == |TextUpTo(words, i)|
  {
    if i > 0 {
      OffsetIsLength(words, i - 1);
    }
  }

  /** The clickable span of word `i`: the word, plus one character if punctuation follows. */
  function SpanLength(words: seq<Word>, i: nat): nat
    requires i < |words|
  {
    |words[i].text| + (if NextIsPunct(words, i) then 1 else 0)
  }

  /** The Timing entry emitted for word `i`. */
  function TimingOf(words: seq<Word>, i: nat): Timing
    requires i < |words|
  {
    Timing(CharRange(Offset(words, i), Offset(words, i) + SpanLength(words, i)), words[i].timing)
  }

  /** The timings after the loop has handled the first `n` words. */
  function TimingsUpTo(words: seq<Word>, n: nat): seq<Timing>
    requires n <= |words|
  {
    if n == 0 then []
    else TimingsUpTo(words, n - 1) + (if IsPunct(words[n - 1]) then [] else [TimingOf(words, n - 1)])
  }

  /** The indices of the words among the first `n` that are not punctuation, in order. */
  function WordIndicesUpTo(words: seq<Word>, n: nat): seq<nat>
    requires n <= |words|
  {
    if n == 0 then []
    else WordIndicesUpTo(words, n - 1) + (if IsPunct(words[n - 1]) then [] else [n - 1])
  }

  function FlatText(words: seq<Word>): string
  {
    TextUpTo(words, |words|)
  }

  function Timings(words: seq<Word>): seq<Timing>
  {
    TimingsUpTo(words, |words|)
  }

  function WordIndices(words: seq<Word>): seq<nat>
  {
    WordIndicesUpTo(words, |words|)
  }

  /** `createContent`: one pass over the words, appending to the text and pushing timings. */
  method CreateContent(words: seq<Word>, editable: bool) returns (c: Content)
    ensures c.text == FlatText(words) && c.timings == Timings(words) && c.editable == editable
    ensures |c.timings| == |WordIndices(words)|
    ensures forall k :: 0 <= k < |c.timings| ==>
              WordIndices(words)[k] < |words| && c.timings[k] == TimingOf(words, WordIndices(words)[k])
  {
    var text := "";
    var timings := [];
    for i := 0 to |words|
      invariant text == TextUpTo(words, i)
      invariant |text| == Offset(words, i)
      invariant timings == TimingsUpTo(words, i)
    {
      var curr := words[i];
      var hasNext := i < |words| - 1;
      var currIsPunctuation := Text.IsPunctuation(curr.text);
      var nextIsPunctuation := hasNext && Text.IsPunctuation(words[i + 1].text);
      if !currIsPunctuation {
        var length := if nextIsPunctuation then |curr.text| + 1 else |curr.text|;
        timings := timings + [Timing(CharRange(|text|, |text| + length), curr.timing)];
      }
      text := text + curr.text;
      if hasNext && !nextIsPunctuation {
        text := text + " ";
      }
    }
    c := Content(timings, text, editable);
    TimingsFollowWords(words, |words|);
  }

  // ---------------------------------------------------------------------------
  // Which words get a timing

  /**
   * The recorded indices are exactly the non-punctuation words, strictly
   * increasing (so each such word appears once, in word order).
   */
  lemma {:induction false} WordIndicesExact(words: seq<Word>, n: nat)
    requires n <= |words|
    ensures forall k :: 0 <= k < |WordIndicesUpTo(words, n)| ==> WordIndicesUpTo(words, n)[k] < n
    ensures forall i :: 0 <= i < n ==> (i in WordIndicesUpTo(words, n) <==> !IsPunct(words[i]))
    ensures forall a, b :: 0 <= a < b < |WordIndicesUpTo(words, n)| ==>
              WordIndicesUpTo(words, n)[a] < WordIndicesUpTo(words, n)[b]
  {
    if n > 0 {
      WordIndicesExact(words, n - 1);
    }
  }

  /** Timing `k` is the entry of the `k`-th non-punctuation word. */
  lemma {:induction false} TimingsFollowWords(words: seq<Word>, n: nat)
    requires n <= |words|
    ensures |TimingsUpTo(words, n)| == |WordIndicesUpTo(words, n)|
    ensures forall k :: 0 <= k < |TimingsUpTo(words, n)| ==>
              WordIndicesUpTo(words, n)[k] < |words| &&
              TimingsUpTo(words, n)[k] == TimingOf(words, WordIndicesUpTo(words, n)[k])
  {
    if n > 0 {
      TimingsFollowWords(words, n - 1);
      WordIndicesBelow(words, n);
      var ts, ix := TimingsUpTo(words, n - 1), WordIndicesUpTo(words, n - 1);
      if IsPunct(words[n - 1]) {
        assert TimingsUpTo(words, n) == ts && WordIndicesUpTo(words, n) == ix;
      } else {
        assert TimingsUpTo(words, n) == ts + [TimingOf(words, n - 1)];
        assert WordIndicesUpTo(words, n) == ix + [n - 1];
      }
    }
  }

  lemma {:induction false} WordIndicesBelow(words: seq<Word>, n: nat)
    requires n <= |words|
    ensures forall k :: 0 <= k < |WordIndicesUpTo(words, n)| ==> WordIndicesUpTo(words, n)[k] < n
  {
    if n > 0 {
      WordIndicesBelow(words, n - 1);
    }
  }

  /**
   * One Timing per non-punctuation word, in word order, carrying that word's
   * own audio span; punctuation words get none.
   */
  lemma OneTimingPerWord(words: seq<Word>)
    ensures |Timings(words)| == |WordIndices(words)|
    ensures forall i :: 0 <= i < |words| ==> (i in WordIndices(words) <==> !IsPunct(words[i]))
    ensures forall a, b :: 0 <= a < b < |WordIndices(words)| ==> WordIndices(words)[a] < WordIndices(words)[b]
    ensures forall k :: 0 <= k < |Timings(words)| ==>
              WordIndices(words)[k] < |words| &&
              Timings(words)[k].time == words[WordIndices(words)[k]].timing
  {
    WordIndicesExact(words, |words|);
    TimingsFollowWords(words, |words|);
  }

  // ---------------------------------------------------------------------------
  // Where words land in the text

  /** Processing more words only appends to the text. */
  lemma {:induction false} TextPrefix(words: seq<Word>, i: nat, j: nat)
    requires i <= j <= |words|
    ensures TextUpTo(words, i) <= TextUpTo(words, j)
    decreases j
  {
    if i < j {
      TextPrefix(words, i, j - 1);
      var a, b := TextUpTo(words, i), TextUpTo(words, j - 1);
      assert TextUpTo(words, j) == b + (words[j - 1].text + Separator(words, j - 1));
      assert TextUpTo(words, j)[..|a|] == b[..|a|];
    }
  }

  /** Word `i` occupies the characters starting at its offset, followed by its separator. */
  lemma WordInText(words: seq<Word>, i: nat)
    requires i < |words|
    ensures Offset(words, i) + |words[i].text| + |Separator(words, i)| <= |FlatText(words)|
    ensures FlatText(words)[Offset(words, i)..Offset(words, i) + |words[i].text|] == words[i].text
    ensures Separator(words, i) == " " ==> FlatText(words)[Offset(words, i) + |words[i].text|] == ' '
  {
    var before, w, sep := TextUpTo(words, i), words[i].text, Separator(words, i);
    var t := TextUpTo(words, i + 1);
    assert t == before + w + sep;
    OffsetIsLength(words, i);
    TextPrefix(words, i + 1, |words|);
    MiddleOfConcat(before, w, sep);
    SliceOfExtension(t, FlatText(words), |before|, |before| + |w|);
    if sep == " " {
      SliceOfExtension(t, FlatText(words), |before| + |w|, |before| + |w| + 1);
    }
  }

  /** The middle part of a three-part concatenation, and the first character of the last part. */
  lemma MiddleOfConcat(a: string, b: string, c: string)
    ensures (a + b + c)[|a|..|a| + |b|] == b
    ensures |c| > 0 ==> (a + b + c)[|a| + |b|] == c[0]
  {
    assert a + b + c == a + (b + c);
  }

  /** A slice of a prefix is the same slice of the longer string. */
  lemma SliceOfExtension(t: string, u: string, lo: nat, hi: nat)
    requires t <= u && lo <= hi <= |t|
    ensures u[lo..hi] == t[lo..hi]
    ensures lo < hi ==> u[lo] == t[lo]
  {
  }

  /**
   * A punctuation word is appended with no space before it: it occupies the
   * character right after the preceding word, which is where that word's
   * clickable span ends.
   */
  lemma PunctuationAttached(words: seq<Word>, i: nat)
    requires i < |words| && NextIsPunct(words, i)
    ensures Offset(words, i + 1) == Offset(words, i) + |words[i].text|
    ensures Offset(words, i) + SpanLength(words, i) <= |FlatText(words)|
    ensures FlatText(words)[Offset(words, i) + |words[i].text|] == words[i + 1].text[0]
  {
    WordInText(words, i + 1);
  }

  /** Every clickable span ends within the text. */
  lemma SpanInText(words: seq<Word>, i: nat)
    requires i < |words|
    ensures Offset(words, i) + SpanLength(words, i) <= |FlatText(words)|
  {
    if NextIsPunct(words, i) {
      PunctuationAttached(words, i);
    } else {
      WordInText(words, i);
    }
  }

  lemma {:induction false} OffsetMonotone(words: seq<Word>, i: nat, j: nat)
    requires i <= j <= |words|
    ensures Offset(words, i) <= Offset(words, j)
    decreases j
  {
    if i < j {
      OffsetMonotone(words, i, j - 1);
    }
  }

  /** The span of word `i` ends strictly before any later non-punctuation word begins. */
  lemma SpanBeforeLaterWord(words: seq<Word>, i: nat, j: nat)
    requires i < j < |words| && !IsPunct(words[j])
    ensures Offset(words, i) + SpanLength(words, i) < Offset(words, j)
  {
    if NextIsPunct(words, i) {
      SpanBeforeLaterWordPunct(words, i, j);
    } else {
      StepBeforeWord(words, i);
      OffsetMonotone(words, i + 1, j);
    }
  }

  /** The case where a punctuation mark follows word `i`, so that `j >= i + 2`. */
  lemma SpanBeforeLaterWordPunct(words: seq<Word>, i: nat, j: nat)
    requires i < j < |words| && !IsPunct(words[j]) && NextIsPunct(words, i)
    ensures Offset(words, i) + SpanLength(words, i) < Offset(words, j)
  {
    var k := j - 1;
    var o, n := Offset(words, i), |words[i].text|;
    StepBeforePunct(words, i);
    assert SpanLength(words, i) == n + 1;
    StepBeforeWord(words, k);
    assert Offset(words, j) == Offset(words, k) + |words[k].text| + 1;
    if k == i + 1 {
      assert Offset(words, k) == o + n && |words[k].text| == 1;
    } else {
      StepAtLeast(words, i + 1);
      OffsetMonotone(words, i + 2, k);
      assert Offset(words, k) >= o + n + 1;
    }
  }

  /** A punctuation word is one character long and follows the previous word with no space. */
  lemma StepBeforePunct(words: seq<Word>, k: nat)
    requires k + 1 < |words| && IsPunct(words[k + 1])
    ensures Offset(words, k + 1) == Offset(words, k) + |words[k].text|
    ensures |words[k + 1].text| == 1
  {
  }

  /** Any other word is preceded by a space. */
  lemma StepBeforeWord(words: seq<Word>, k: nat)
    requires k + 1 < |words| && !IsPunct(words[k + 1])
    ensures Offset(words, k + 1) == Offset(words, k) + |words[k].text| + 1
  {
  }

  /** The next word begins no earlier than the end of this one. */
  lemma StepAtLeast(words: seq<Word>, k: nat)
    requires k < |words|
    ensures Offset(words, k + 1) >= Offset(words, k) + |words[k].text|
  {
  }

  /**
   * The emitted spans are in bounds, ordered and disjoint: each starts where
   * its word starts, ends within the text, and ends before the next begins,
   * so the starts are strictly increasing.
   */
  lemma TimingsOrdered(words: seq<Word>)
    ensures forall k :: 0 <= k < |Timings(words)| ==>
              0 <= Timings(words)[k].chars.start <= Timings(words)[k].chars.end <= |FlatText(words)|
    ensures forall k :: 0 <= k < |Timings(words)| - 1 ==>
              Timings(words)[k].chars.end < Timings(words)[k + 1].chars.start
    ensures forall k, l :: 0 <= k < l < |Timings(words)| ==>
              Timings(words)[k].chars.start < Timings(words)[l].chars.start
  {
    var T := Timings(words);
    var I := WordIndices(words);
    OneTimingPerWord(words);
    TimingsFollowWords(words, |words|);
    forall k | 0 <= k < |T|
      ensures 0 <= T[k].chars.start <= T[k].chars.end <= |FlatText(words)|
    {
      SpanInText(words, I[k]);
    }
    forall k | 0 <= k < |T| - 1
      ensures T[k].chars.end < T[k + 1].chars.start
    {
      SpanBeforeLaterWord(words, I[k], I[k + 1]);
    }
    forall k, l | 0 <= k < l < |T|
      ensures T[k].chars.start < T[l].chars.start
    {
      SpanBeforeLaterWord(words, I[k], I[l]);
    }
  }

  /**
   * The timing of each non-punctuation word points at that word's characters
   * in the text; its span is the word, or the word and the attached punctuation.
   */
  lemma TimingCoversWord(words: seq<Word>, k: nat)
    requires k < |Timings(words)|
    ensures |Timings(words)| == |WordIndices(words)|
    ensures WordIndices(words)[k] < |words| && Timings(words)[k] == TimingOf(words, WordIndices(words)[k])
    ensures var t, w := Timings(words)[k], words[WordIndices(words)[k]];
            && t.chars.start + |w.text| <= |FlatText(words)|
            && FlatText(words)[t.chars.start..t.chars.start + |w.text|] == w.text
            && t.chars.end - t.chars.start == (if NextIsPunct(words, WordIndices(words)[k]) then |w.text| + 1 else |w.text|)
  {
    TimingsFollowWords(words, |words|);
    WordInText(words, WordIndices(words)[k]);
  }

  // ---------------------------------------------------------------------------
  // Without punctuation the text is the words joined by single spaces

  /** `Array.prototype.join(' ')`. */
  function JoinSpaces(ss: seq<string>): string
  {
    if |ss| == 0 then ""
    else if |ss| == 1 then ss[0]
    else ss[0] + " " + JoinSpaces(ss[1..])
  }

  function WordTexts(words: seq<Word>): (ts: seq<string>)
    ensures |ts| == |words| && forall i :: 0 <= i < |words| ==> ts[i] == words[i].text
  {
    seq(|words|, i requires 0 <= i < |words| => words[i].text)
  }

  lemma {:induction false} JoinSpacesSnoc(ss: seq<string>, t: string)
    requires |ss| > 0
    ensures JoinSpaces(ss + [t]) == JoinSpaces(ss) + " " + t
  {
    if |ss| > 1 {
      assert (ss + [t])[1..] == ss[1..] + [t];
      JoinSpacesSnoc(ss[1..], t);
    }
  }

  lemma {:induction false} TextUpToJoins(words: seq<Word>, n: nat)
    requires 0 < n <= |words|
    requires forall i :: 0 <= i < |words| ==> !IsPunct(words[i])
    ensures TextUpTo(words, n) == JoinSpaces(WordTexts(words)[..n]) + (if n < |words| then " " else "")
  {
    var ts := WordTexts(words);
    if n == 1 {
      assert ts[..1] == [words[0].text];
    } else {
      TextUpToJoins(words, n - 1);
      assert ts[..n] == ts[..n - 1] + [words[n - 1].text];
      JoinSpacesSnoc(ts[..n - 1], words[n - 1].text);
    }
  }

  /** With no punctuation words, the text is the word texts joined by single spaces. */
  lemma FlatTextWithoutPunctuation(words: seq<Word>)
    requires forall i :: 0 <= i < |words| ==> !IsPunct(words[i])
    ensures FlatText(words) == JoinSpaces(WordTexts(words))
  {
    if |words| > 0 {
      TextUpToJoins(words, |words|);
      assert WordTexts(words)[..|words|] == WordTexts(words);
    }
  }
}
