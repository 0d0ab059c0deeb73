/** The paragraph decoder of src/models/speech.ts. */
module Speech {
  import opened Ranges

  datatype Word = Word(text: string, timing: Range)

  datatype Paragraph = Paragraph(id: int, speakerId: int, timing: Range, words: seq<Word>)

  datatype WordJson = WordJson(word: string, start: real, end: real)

  datatype ParagraphJson = ParagraphJson(uttId: int, spkId: int, uttStart: real, uttEnd: real,
                                         correctorKey: string, wordList: seq<WordJson>)

  function DecodeWord(json: WordJson): (w: Word)
    ensures w.text == json.word && w.timing == Range(json.start, json.end)
  {
    Word(json.word, Range(json.start, json.end))
  }

  /** `decodeParagraph`: ids and span copied, words mapped one to one in order. */
  function DecodeParagraph(json: ParagraphJson): (p: Paragraph)
    ensures p.id == json.uttId && p.speakerId == json.spkId
    ensures p.timing == Range(json.uttStart, json.uttEnd)
    ensures |p.words| == |json.wordList|
    ensures forall k :: 0 <= k < |json.wordList| ==>
              p.words[k].text == json.wordList[k].word &&
              p.words[k].timing == Range(json.wordList[k].start, json.wordList[k].end)
  {
    Paragraph(json.uttId, json.spkId, Range(json.uttStart, json.uttEnd),
              seq(|json.wordList|, k requires 0 <= k < |json.wordList| => DecodeWord(json.wordList[k])))
  }

  /** `corrector_key` is dropped: it has no influence on the decoded paragraph. */
  lemma CorrectorKeyIgnored(json: ParagraphJson, key: string)
    ensures DecodeParagraph(json.(correctorKey := key)) == DecodeParagraph(json)
  {
  }
}
