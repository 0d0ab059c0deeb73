/**
 * The mock task server of api-server/manager.py: a read-only list of timed
 * words, a scan for the word near a time, and the cutting of a random task
 * into before / editable / after word lists. The random draws and the task
 * id are parameters.
 */
module ApiManager {
  import opened Wrappers

  /** `MIN_TASK_DURATION` .. `MAX_TIME_BEFORE_AFTER`, in seconds. */
  const MinTaskDuration: real := 10.0
  const MaxTaskDuration: real := 40.0
  const MinTimeBeforeAfter: real := 7.0
  const MaxTimeBeforeAfter: real := 15.0

  datatype Word = Word(word: string, start: real, end: real, speaker: Option<string>)

  datatype TaskText = TaskText(before: seq<Word>, editable: seq<Word>, after: seq<Word>)

  datatype Task = Task(id: string, text: TaskText, editableStart: real, editableEnd: real)

  /**
   * The values `random.uniform(a, b)` can return: a number between `a` and
   * `b`, whichever of the two is larger.
   */
  predicate UniformDraw(a: real, b: real, r: real)
  {
    if a <= b then a <= r <= b else b <= r <= a
  }

  /** Python's `s[a:b]` for non-negative bounds: clamped to the list, empty when `a >= b`. */
  function Slice<T>(s: seq<T>, a: nat, b: nat): (r: seq<T>)
    ensures |r| == if a < b && a < |s| then (if b < |s| then b else |s|) - a else 0
    ensures forall k :: 0 <= k < |r| ==> a + k < |s| && r[k] == s[a + k]
  {
    var hi := if b < |s| then b else |s|;
    if a < hi then s[a..hi] else []
  }

  /** The test of `word_near_time`: the time lies before the word, or strictly inside it. */
  predicate Near(w: Word, time: real)
  {
    time < w.start || (time > w.start && time < w.end)
  }

  /**
   * What `word_near_time` returns for a non-empty list: the first index whose
   * word is near `time`, or the last index when none is.
   */
  predicate IsNearIndex(words: seq<Word>, time: real, i: int)
  {
    && 0 <= i < |words|
    && (forall k :: 0 <= k < i ==> !Near(words[k], time))
    && (Near(words[i], time) || (i == |words| - 1 && !Near(words[i], time)))
  }

  /** There is exactly one such index. */
  lemma NearIndexUnique(words: seq<Word>, time: real, i: int, j: int)
    requires IsNearIndex(words, time, i) && IsNearIndex(words, time, j)
    ensures i == j
  {
  }

  /** A time equal to a word's start is never inside that word (both tests are strict). */
  lemma ExactStartNotInside(w: Word)
    ensures Near(w, w.start) <==> false
  {
  }

  /** Consecutive words do not overlap: each ends no later than the next one starts. */
  predicate Ordered(words: seq<Word>)
  {
    forall k :: 0 <= k < |words| - 1 ==> words[k].end <= words[k + 1].start
  }

  /**
   * On ordered words a later time never selects an index more than one
   * below an earlier time's. (One below happens: a time equal to a word's
   * start skips that word.)
   */
  lemma NearIndicesAlmostMonotone(words: seq<Word>, t1: real, t2: real, i1: int, i2: int)
    requires Ordered(words) && t1 <= t2
    requires IsNearIndex(words, t1, i1) && IsNearIndex(words, t2, i2)
    ensures i1 <= i2 + 1
  {
    if i2 < |words| - 1 && Near(words[i2], t2) && !Near(words[i2], t1) {
      assert t1 == words[i2].start;
      assert Near(words[i2 + 1], t1);
    }
  }

  /** Three one-second words with gaps: exactly 2.0 s, the start of "b", selects "c"; 2.5 s selects "b". */
  lemma ExactStartSkipsWord()
    ensures var ws := [Word("a", 0.0, 1.0, None), Word("b", 2.0, 3.0, None), Word("c", 4.0, 5.0, None)];
            IsNearIndex(ws, 2.0, 2) && IsNearIndex(ws, 2.5, 1)
  {
  }

  /** `WordList`: a list of words that is never changed after construction. */
  class WordList {
    const words: seq<Word>

    constructor(words: seq<Word>)
      ensures this.words == words
    {
      this.words := words;
    }

    /** `start_time`: the first word's start (the empty list raises). */
    function StartTime(): (t: real)
      requires |words| > 0
      ensures t == words[0].start
    {
      words[0].start
    }

    /** `end_time`: the last word's end (the empty list raises). */
    function EndTime(): (t: real)
      requires |words| > 0
      ensures t == words[|words| - 1].end
    {
      words[|words| - 1].end
    }

    /** `word_near_time`: a scan returning the first near word, else the last word. */
    method WordNearTime(time: real) returns (i: int, w: Word)
      requires |words| > 0
      ensures IsNearIndex(words, time, i)
      ensures w == words[i]
    {
      var k := 0;
      while k < |words|
        invariant 0 <= k <= |words|
        invariant forall j :: 0 <= j < k ==> !Near(words[j], time)
      {
        var word := words[k];
        if time < word.start || (time > word.start && time < word.end) {
          return k, word;
        }
        k := k + 1;
      }
      return |words| - 1, words[|words| - 1];
    }
  }

  /** `before_time`: a random 7..15 seconds before `start`, clamped at 0. */
  function BeforeTime(start: real, gap: real): (t: real)
    requires UniformDraw(MinTimeBeforeAfter, MaxTimeBeforeAfter, gap)
    ensures t >= 0.0
    ensures t <= start - MinTimeBeforeAfter || t == 0.0
    ensures t >= start - MaxTimeBeforeAfter
  {
    var t := start - gap;
    if t >= 0.0 then t else 0.0
  }

  /** `after_time`: a random 7..15 seconds after `end`, clamped at `limit` (the list's end time). */
  function AfterTime(end: real, limit: real, gap: real): (t: real)
    requires UniformDraw(MinTimeBeforeAfter, MaxTimeBeforeAfter, gap)
    ensures t <= limit
    ensures t >= end + MinTimeBeforeAfter || t == limit
    ensures t <= end + MaxTimeBeforeAfter
  {
    var t := end + gap;
    if t <= limit then t else limit
  }

  /** `Manager`: cuts tasks out of one word list. */
  class Manager {
    const wordlist: WordList

    constructor(wordlist: WordList)
      ensures this.wordlist == wordlist
    {
      this.wordlist := wordlist;
    }

    /**
     * `_get_before_text`: the words from the one near `before_time` up to,
     * not including, the editable start. `beforeStartIdx` is the index the
     * scan returned.
     */
    method GetBeforeText(editableStartIdx: nat, gap: real) returns (before: seq<Word>, ghost beforeStartIdx: int)
      requires editableStartIdx < |wordlist.words|
      requires UniformDraw(MinTimeBeforeAfter, MaxTimeBeforeAfter, gap)
      ensures IsNearIndex(wordlist.words, BeforeTime(wordlist.words[editableStartIdx].start, gap), beforeStartIdx)
      ensures before == Slice(wordlist.words, beforeStartIdx, editableStartIdx)
      ensures forall k :: 0 <= k < |before| ==> before[k] == wordlist.words[beforeStartIdx + k] && beforeStartIdx + k < editableStartIdx
    {
      var startTime := wordlist.words[editableStartIdx].start;
      var beforeTime := startTime - gap;
      beforeTime := if beforeTime >= 0.0 then beforeTime else 0.0;
      var idx, _ := wordlist.WordNearTime(beforeTime);
      beforeStartIdx := idx;
      before := Slice(wordlist.words, idx, editableStartIdx);
    }

    /**
     * `_get_after_text`: the words after the editable end up to, not
     * including, the one near `after_time`.
     */
    method GetAfterText(editableEndIdx: nat, gap: real) returns (after: seq<Word>, ghost afterEndIdx: int)
      requires editableEndIdx < |wordlist.words|
      requires UniformDraw(MinTimeBeforeAfter, MaxTimeBeforeAfter, gap)
      ensures IsNearIndex(wordlist.words, AfterTime(wordlist.words[editableEndIdx].end, wordlist.EndTime(), gap), afterEndIdx)
      ensures after == Slice(wordlist.words, editableEndIdx + 1, afterEndIdx)
      ensures forall k :: 0 <= k < |after| ==> after[k] == wordlist.words[editableEndIdx + 1 + k] && editableEndIdx + 1 + k < afterEndIdx
    {
      var endTime := wordlist.words[editableEndIdx].end;
      var afterTime := endTime + gap;
      afterTime := if afterTime <= wordlist.EndTime() then afterTime else wordlist.EndTime();
      var idx, _ := wordlist.WordNearTime(afterTime);
      afterEndIdx := idx;
      after := Slice(wordlist.words, editableEndIdx + 1, idx);
    }

    /**
     * `get_random_task`: a random window of 10..40 seconds, snapped to words;
     * the editable words run from the start index to the end index inclusive,
     * framed by the before and after text. On ordered words the three lists
     * come from disjoint index ranges, in list order.
     */
    method GetRandomTask(duration: real, start: real, gapBefore: real, gapAfter: real, id: string)
      returns (task: Task, ghost startIdx: int, ghost endIdx: int)
      requires |wordlist.words| > 0
      requires UniformDraw(MinTaskDuration, MaxTaskDuration, duration)
      requires UniformDraw(wordlist.StartTime(), wordlist.EndTime() - duration, start)
      requires UniformDraw(MinTimeBeforeAfter, MaxTimeBeforeAfter, gapBefore)
      requires UniformDraw(MinTimeBeforeAfter, MaxTimeBeforeAfter, gapAfter)
      ensures IsNearIndex(wordlist.words, start, startIdx) && IsNearIndex(wordlist.words, start + duration, endIdx)
      ensures task.id == id
      ensures task.text.editable == Slice(wordlist.words, startIdx, endIdx + 1)
      ensures task.editableStart == wordlist.words[startIdx].start
      ensures task.editableEnd == wordlist.words[endIdx].end
      ensures exists b :: IsNearIndex(wordlist.words, BeforeTime(wordlist.words[startIdx].start, gapBefore), b) &&
                          task.text.before == Slice(wordlist.words, b, startIdx)
      ensures exists a :: IsNearIndex(wordlist.words, AfterTime(wordlist.words[endIdx].end, wordlist.EndTime(), gapAfter), a) &&
                          task.text.after == Slice(wordlist.words, endIdx + 1, a)
      ensures Ordered(wordlist.words) ==> startIdx <= endIdx + 1
    {
      var end := start + duration;
      var si, startWord := wordlist.WordNearTime(start);
      var ei, endWord := wordlist.WordNearTime(end);
      startIdx, endIdx := si, ei;
      var editableWords := Slice(wordlist.words, si, ei + 1);
      var beforeWords, b := GetBeforeText(si, gapBefore);
      var afterWords, a := GetAfterText(ei, gapAfter);
      task := Task(id, TaskText(beforeWords, editableWords, afterWords), startWord.start, endWord.end);
      if Ordered(wordlist.words) {
        NearIndicesAlmostMonotone(wordlist.words, start, end, si, ei);
      }
    }
  }
}
