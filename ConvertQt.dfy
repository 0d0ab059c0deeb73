/**
 * `convert_utts_to_wordlist` of scripts/convert_qt_input.py: the utterances
 * of a QT transcript are concatenated into one word list, and the first word
 * of every utterance is stamped with the utterance's speaker. The word
 * records are the input's own objects, changed in place.
 */
module ConvertQt {
  import opened Wrappers
  import opened Seqs

  /** A word record of the QT json; `speaker` is the optional `"speaker"` key. */
  class QtWord {
    const word: string
    const start: real
    const end: real
    var speaker: Option<int>

    constructor(word: string, start: real, end: real)
      ensures this.word == word && this.start == start && this.end == end && speaker == None
    {
      this.word := word;
      this.start := start;
      this.end := end;
      speaker := None;
    }
  }

  /** An utterance: its speaker id and its words. */
  datatype Utterance = Utterance(spkId: int, wordList: seq<QtWord>)

  /** The utterances' word lists, in order. */
  function WordLists(utts: seq<Utterance>): (ss: seq<seq<QtWord>>)
    ensures |ss| == |utts|
    ensures forall u :: 0 <= u < |utts| ==> ss[u] == utts[u].wordList
  {
    seq(|utts|, u requires 0 <= u < |utts| => utts[u].wordList)
  }

  /** No word record appears twice (each json object is a fresh dict). */
  predicate DistinctWords(utts: seq<Utterance>)
  {
    forall u, i, v, j ::
      && 0 <= u < |utts| && 0 <= i < |utts[u].wordList| && 0 <= v < |utts| && 0 <= j < |utts[v].wordList|
      && utts[u].wordList[i] == utts[v].wordList[j]
      ==> u == v && i == j
  }

  /** The first words, the only records the conversion writes to. */
  function FirstWords(utts: seq<Utterance>): set<QtWord>
  {
    set u | 0 <= u < |utts| && |utts[u].wordList| > 0 :: utts[u].wordList[0]
  }

  /**
   * The output is the concatenation of the word lists, in utterance order and
   * word order, holding the input records themselves; every non-empty
   * utterance's first word now has `speaker == spk_id`, and every other word
   * keeps whatever speaker it had.
   */
  method ConvertUttsToWordlist(utts: seq<Utterance>) returns (wordlist: seq<QtWord>)
    requires DistinctWords(utts)
    modifies FirstWords(utts)
    ensures wordlist == Flatten(WordLists(utts))
    ensures forall u :: 0 <= u < |utts| && |utts[u].wordList| > 0 ==>
              utts[u].wordList[0].speaker == Some(utts[u].spkId)
    ensures forall u, i :: 0 <= u < |utts| && 0 < i < |utts[u].wordList| ==>
              utts[u].wordList[i].speaker == old(utts[u].wordList[i].speaker)
  {
    ghost var lists := WordLists(utts);
    wordlist := [];
    for u := 0 to |utts|
      invariant wordlist == Flatten(lists[..u])
      invariant forall v :: 0 <= v < u && |utts[v].wordList| > 0 ==>
                  utts[v].wordList[0].speaker == Some(utts[v].spkId)
    {
      if |utts[u].wordList| > 0 {
        FirstWordsDistinct(utts, u);
      }
      wordlist := AppendUtterance(wordlist, utts[u]);
      assert lists[..u + 1] == lists[..u] + [utts[u].wordList];
      FlattenSnoc(lists[..u], utts[u].wordList);
    }
    assert lists[..|utts|] == lists;
    LaterWordsNotFirst(utts);
  }

  /** The record stamped for utterance `u` is no other utterance's first word. */
  lemma FirstWordsDistinct(utts: seq<Utterance>, u: nat)
    requires DistinctWords(utts) && u < |utts| && |utts[u].wordList| > 0
    ensures forall v :: 0 <= v < |utts| && v != u && |utts[v].wordList| > 0 ==>
              utts[v].wordList[0] != utts[u].wordList[0]
  {
  }

  /** No word after the first of an utterance is among the records the conversion writes to. */
  lemma LaterWordsNotFirst(utts: seq<Utterance>)
    requires DistinctWords(utts)
    ensures forall u, i :: 0 <= u < |utts| && 0 < i < |utts[u].wordList| ==>
              utts[u].wordList[i] !in FirstWords(utts)
  {
  }

  /** The output's length is the sum of the utterances' lengths. */
  lemma OutputLength(utts: seq<Utterance>)
    ensures |Flatten(WordLists(utts))| == SumLengths(WordLists(utts))
  {
    FlattenLength(WordLists(utts));
  }

  /** Word `i` of utterance `u` sits right after all words of the utterances before `u`. */
  lemma OutputPosition(utts: seq<Utterance>, u: nat, i: nat)
    requires u < |utts| && i < |utts[u].wordList|
    ensures SumLengths(WordLists(utts)[..u]) + i < |Flatten(WordLists(utts))|
    ensures Flatten(WordLists(utts))[SumLengths(WordLists(utts)[..u]) + i] == utts[u].wordList[i]
  {
    FlattenAt(WordLists(utts), u, i);
  }

  /** The inner loop for one utterance: append its words, stamping the first. */
  method AppendUtterance(wordlist: seq<QtWord>, utt: Utterance) returns (extended: seq<QtWord>)
    modifies if |utt.wordList| > 0 then {utt.wordList[0]} else {}
    ensures extended == wordlist + utt.wordList
    ensures |utt.wordList| > 0 ==> utt.wordList[0].speaker == Some(utt.spkId)
  {
    extended := wordlist;
    var words := utt.wordList;
    for i := 0 to |words|
      invariant extended == wordlist + words[..i]
      invariant i > 0 ==> words[0].speaker == Some(utt.spkId)
    {
      var word := words[i];
      if i == 0 {
        word.speaker := Some(utt.spkId);
      }
      extended := extended + [word];
      assert words[..i + 1] == words[..i] + [word];
    }
    assert words[..|words|] == words;
  }
}
