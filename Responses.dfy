/** The wire decoders of src/network/responses.ts. */
module Responses {
  import opened Wrappers
  import opened Ranges
  import opened Models

  datatype WordJson = WordJson(word: string, start: real, end: real, speaker: Option<string>)

  datatype SegmentJson = SegmentJson(start: real, end: real, words: seq<WordJson>)

  datatype SegmentsJson = SegmentsJson(before: SegmentJson, after: SegmentJson, body: SegmentJson)

  datatype TaskJson = TaskJson(id: string, taskType: TaskType, start: real, end: real, segments: SegmentsJson)

  datatype GlossEntryJson = GlossEntryJson(id: string, text: string, comment: string)

  datatype GlossaryJson = GlossaryJson(gloss: seq<GlossEntryJson>)

  /** The glossary as `toGlossary` builds it: the term texts. */
  datatype Glossary = Glossary(terms: seq<string>)

  /** `toWord`: `word` becomes `text`, `start`/`end` become `timing`, `speaker` is copied. */
  function ToWord(json: WordJson): (w: Word)
    ensures w.text == json.word && w.timing == Range(json.start, json.end) && w.speaker == json.speaker
  {
    Word(json.word, Range(json.start, json.end), json.speaker)
  }

  /** `words.map(toWord)`: same length, same order. */
  function ToWords(json: seq<WordJson>): (ws: seq<Word>)
    ensures |ws| == |json|
    ensures forall k :: 0 <= k < |json| ==> ws[k] == ToWord(json[k])
  {
    if |json| == 0 then [] else [ToWord(json[0])] + ToWords(json[1..])
  }

  /** The segment literal written out three times in `toTask`. */
  function ToSegment(json: SegmentJson): (s: Segment)
    ensures s.timing == Range(json.start, json.end)
    ensures |s.words| == |json.words|
    ensures forall k :: 0 <= k < |json.words| ==> s.words[k] == ToWord(json.words[k])
  {
    Segment(ToWords(json.words), Range(json.start, json.end))
  }

  /** `toTask`: `body` is the editable segment; id, type and the task span are copied. */
  function ToTask(json: TaskJson): (t: Task)
    ensures t.id == json.id && t.taskType == json.taskType && t.timing == Range(json.start, json.end)
    ensures t.text.before == ToSegment(json.segments.before)
    ensures t.text.editable == ToSegment(json.segments.body)
    ensures t.text.after == ToSegment(json.segments.after)
  {
    Task(json.id, json.taskType,
         TaskText(ToSegment(json.segments.before), ToSegment(json.segments.body), ToSegment(json.segments.after)),
         Range(json.start, json.end))
  }

  /** `toGlossary`: one term per entry, in order, each the entry's text. */
  function ToGlossary(json: GlossaryJson): (g: Glossary)
    ensures |g.terms| == |json.gloss|
    ensures forall k :: 0 <= k < |json.gloss| ==> g.terms[k] == json.gloss[k].text
  {
    Glossary(seq(|json.gloss|, k requires 0 <= k < |json.gloss| => json.gloss[k].text))
  }

  // ---------------------------------------------------------------------------
  // The encoding the decoders undo

  function FromWord(w: Word): WordJson
  {
    WordJson(w.text, w.timing.start, w.timing.end, w.speaker)
  }

  function FromWords(ws: seq<Word>): (json: seq<WordJson>)
    ensures |json| == |ws|
    ensures forall k :: 0 <= k < |ws| ==> json[k] == FromWord(ws[k])
  {
    if |ws| == 0 then [] else [FromWord(ws[0])] + FromWords(ws[1..])
  }

  function FromSegment(s: Segment): SegmentJson
  {
    SegmentJson(s.timing.start, s.timing.end, FromWords(s.words))
  }

  function FromTask(t: Task): TaskJson
  {
    TaskJson(t.id, t.taskType, t.timing.start, t.timing.end,
             SegmentsJson(FromSegment(t.text.before), FromSegment(t.text.after), FromSegment(t.text.editable)))
  }

  /** Decoding loses nothing: every task is the decoding of its encoding... */
  lemma DecodeEncodeTask(t: Task)
    ensures ToTask(FromTask(t)) == t
  {
    var segs := [t.text.before, t.text.editable, t.text.after];
    forall s | s in segs
      ensures ToSegment(FromSegment(s)) == s
    {
      assert ToWords(FromWords(s.words)) == s.words;
    }
  }

  /** ...and every wire task is the encoding of its decoding. */
  lemma EncodeDecodeTask(json: TaskJson)
    ensures FromTask(ToTask(json)) == json
  {
    var segs := [json.segments.before, json.segments.body, json.segments.after];
    forall s | s in segs
      ensures FromSegment(ToSegment(s)) == s
    {
      assert FromWords(ToWords(s.words)) == s.words;
    }
  }
}
