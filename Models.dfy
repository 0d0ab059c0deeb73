/** The client-side document types of src/models/task.ts. */
module Models {
  import opened Wrappers
  import opened Ranges

  /** A transcribed word; a present `speaker` marks the start of a speaker turn. */
  datatype Word = Word(text: string, timing: Range, speaker: Option<string>)

  /** An ordered run of words and the audio span it covers. */
  datatype Segment = Segment(words: seq<Word>, timing: Range)

  datatype TaskType = Edit | Review

  /** The before/editable/after text of one task. */
  datatype TaskText = TaskText(before: Segment, editable: Segment, after: Segment)

  datatype Task = Task(id: string, taskType: TaskType, text: TaskText, timing: Range)
}
