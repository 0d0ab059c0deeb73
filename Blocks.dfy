/**
 * `createBlocks` of src/components/Editor/Editor.tsx: grouping a segment's
 * words into speaker-turn paragraphs and giving each paragraph one Block
 * with a single Content child.
 */
module Blocks {
  import opened Wrappers
  import opened Models
  import opened Seqs
  import opened Alignment

  /** A Block element: the editable flag and its children (always one Content). */
  datatype Block = Block(editable: bool, children: seq<Content>)

  /** JavaScript truthiness of `word.speaker` (`string | null`): present and non-empty. */
  predicate HasSpeaker(w: Word)
  {
    w.speaker.Some? && w.speaker.value != ""
  }

  /**
   * `paragraphs` groups `words`: read in order the groups give back the words,
   * no group is empty, every group after the first starts at a word with a
   * speaker, and no word with a speaker sits inside a group.
   */
  predicate IsParagraphing(words: seq<Word>, paragraphs: seq<seq<Word>>)
  {
    && Flatten(paragraphs) == words
    && (forall p :: 0 <= p < |paragraphs| ==> |paragraphs[p]| > 0)
    && (forall p :: 0 < p < |paragraphs| ==> HasSpeaker(paragraphs[p][0]))
    && (forall p, k :: 0 <= p < |paragraphs| && 0 < k < |paragraphs[p]| ==> !HasSpeaker(paragraphs[p][k]))
  }

  /** The `reduce` of `createBlocks`: open a new chunk at index 0 and at every word with a speaker. */
  method Paragraphs(words: seq<Word>) returns (chunks: seq<seq<Word>>)
    ensures IsParagraphing(words, chunks)
    ensures |chunks| == 0 <==> |words| == 0
  {
    chunks := [];
    for i := 0 to |words|
      invariant IsParagraphing(words[..i], chunks)
      invariant |chunks| == 0 <==> i == 0
    {
      var word := words[i];
      ghost var prev := chunks;
      var opens := HasSpeaker(word) || i == 0;
      if opens {
        chunks := chunks + [[]];
      }
      var n := |chunks| - 1;
      var last := chunks[n] + [word];
      if opens {
        assert chunks[..n] == prev && last == [word];
      }
      chunks := chunks[..n] + [last];
      if opens {
        OpenParagraph(words[..i], prev, word);
      } else {
        ExtendParagraph(words[..i], prev, word);
      }
      assert words[..i + 1] == words[..i] + [word];
    }
    assert words[..|words|] == words;
  }

  /** A word that opens a new paragraph keeps the grouping valid. */
  lemma OpenParagraph(words: seq<Word>, chunks: seq<seq<Word>>, w: Word)
    requires IsParagraphing(words, chunks)
    requires HasSpeaker(w) || |chunks| == 0
    ensures IsParagraphing(words + [w], chunks + [[w]])
  {
    FlattenSnoc(chunks, [w]);
  }

  /** A word without a speaker joins the last paragraph and keeps the grouping valid. */
  lemma ExtendParagraph(words: seq<Word>, chunks: seq<seq<Word>>, w: Word)
    requires IsParagraphing(words, chunks)
    requires |chunks| > 0 && !HasSpeaker(w)
    ensures IsParagraphing(words + [w], chunks[..|chunks| - 1] + [chunks[|chunks| - 1] + [w]])
  {
    var n := |chunks| - 1;
    var init := chunks[..n];
    assert chunks == init + [chunks[n]];
    FlattenSnoc(init, chunks[n]);
    FlattenSnoc(init, chunks[n] + [w]);
    var next := init + [chunks[n] + [w]];
    assert forall p, k :: 0 <= p < n && 0 <= k < |next[p]| ==> next[p][k] == chunks[p][k];
  }

  /**
   * `createBlocks`: one Block per paragraph, each holding exactly one Content
   * built by `createContent` with the given `editable` flag. The paragraphs
   * are returned alongside (ghost) so that the grouping can be stated.
   */
  method CreateBlocks(words: seq<Word>, editable: bool) returns (blocks: seq<Block>, ghost paragraphs: seq<seq<Word>>)
    ensures IsParagraphing(words, paragraphs)
    ensures |blocks| == |paragraphs|
    ensures |words| == 0 ==> blocks == []
    ensures forall p :: 0 <= p < |blocks| ==>
              && blocks[p].editable == editable
              && |blocks[p].children| == 1
              && blocks[p].children[0] == Content(Timings(paragraphs[p]), FlatText(paragraphs[p]), editable)
  {
    var chunks := Paragraphs(words);
    paragraphs := chunks;
    blocks := [];
    for p := 0 to |chunks|
      invariant |blocks| == p
      invariant forall q :: 0 <= q < p ==>
                  && blocks[q].editable == editable
                  && |blocks[q].children| == 1
                  && blocks[q].children[0] == Content(Timings(chunks[q]), FlatText(chunks[q]), editable)
    {
      var content := CreateContent(chunks[p], editable);
      blocks := blocks + [Block(editable, [content])];
    }
  }

  /**
   * Paragraph `p` begins in the word list right after the words of the
   * paragraphs before it, and (past the first) at a word whose speaker is
   * truthy: a word whose speaker is the empty string does not open one.
   */
  lemma {:induction false} ParagraphStarts(words: seq<Word>, paragraphs: seq<seq<Word>>, p: nat)
    requires IsParagraphing(words, paragraphs)
    requires p < |paragraphs|
    ensures SumLengths(paragraphs[..p]) < |words|
    ensures words[SumLengths(paragraphs[..p])] == paragraphs[p][0]
    ensures p > 0 ==> HasSpeaker(words[SumLengths(paragraphs[..p])])
  {
    FlattenAt(paragraphs, p, 0);
  }

  /** A word with a speaker is always the first word of its paragraph. */
  lemma SpeakerOpensParagraph(words: seq<Word>, paragraphs: seq<seq<Word>>, p: nat, k: nat)
    requires IsParagraphing(words, paragraphs)
    requires p < |paragraphs| && k < |paragraphs[p]|
    requires HasSpeaker(paragraphs[p][k])
    ensures k == 0
  {
  }

  /** A list of words determines its paragraphs: the grouping property has one solution. */
  lemma {:induction false} ParagraphingUnique(words: seq<Word>, ps: seq<seq<Word>>, qs: seq<seq<Word>>)
    requires IsParagraphing(words, ps) && IsParagraphing(words, qs)
    ensures ps == qs
    decreases |words|
  {
    if |ps| == 0 || |qs| == 0 {
      EmptyParagraphing(words, ps);
      EmptyParagraphing(words, qs);
    } else {
      // the last paragraph starts at the last word with a speaker (or at 0)
      LastParagraphLength(words, ps);
      LastParagraphLength(words, qs);
      var lp, lq := ps[|ps| - 1], qs[|qs| - 1];
      assert |lp| == |lq|;
      DropLastParagraph(words, ps);
      DropLastParagraph(words, qs);
      ParagraphingUnique(words[..|words| - |lp|], ps[..|ps| - 1], qs[..|qs| - 1]);
    }
  }

  /** Without its last paragraph, a grouping groups the words before that paragraph. */
  lemma DropLastParagraph(words: seq<Word>, ps: seq<seq<Word>>)
    requires IsParagraphing(words, ps) && |ps| > 0
    ensures |ps[|ps| - 1]| <= |words|
    ensures var n := |words| - |ps[|ps| - 1]|;
            && IsParagraphing(words[..n], ps[..|ps| - 1])
            && ps[|ps| - 1] == words[n..]
            && ps == ps[..|ps| - 1] + [ps[|ps| - 1]]
  {
    var last := ps[|ps| - 1];
    var init := ps[..|ps| - 1];
    FlattenSnoc(init, last);
    assert ps == init + [last];
    var n := |words| - |last|;
    assert words == Flatten(init) + last;
    assert Flatten(init) == words[..n];
  }

  lemma EmptyParagraphing(words: seq<Word>, ps: seq<seq<Word>>)
    requires IsParagraphing(words, ps)
    ensures |ps| == 0 <==> |words| == 0
  {
    if |ps| > 0 {
      FlattenSnoc(ps[..|ps| - 1], ps[|ps| - 1]);
      assert ps == ps[..|ps| - 1] + [ps[|ps| - 1]];
    }
  }

  /**
   * The last paragraph is the suffix of the words that starts at the last word
   * with a speaker, or at index 0 when no word after index 0 has one.
   */
  lemma LastParagraphLength(words: seq<Word>, ps: seq<seq<Word>>)
    requires IsParagraphing(words, ps) && |ps| > 0
    ensures var n := |words| - |ps[|ps| - 1]|;
            && 0 <= n < |words|
            && (n == 0 || HasSpeaker(words[n]))
            && forall k :: n < k < |words| ==> !HasSpeaker(words[k])
  {
    var last := ps[|ps| - 1];
    var init := ps[..|ps| - 1];
    FlattenSnoc(init, last);
    assert ps == init + [last];
    var n := |words| - |last|;
    assert words == Flatten(init) + last;
    assert forall k :: n <= k < |words| ==> words[k] == last[k - n];
  }
}
