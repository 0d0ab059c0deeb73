/**
 * Playback highlighting and click-to-seek of src/components/Editor/Editor.tsx:
 * `splitTimings`, `rangeForTimings`, `handleDecorate` and the offset-to-time
 * lookup inside `onClick`.
 */
module Decorate {
  import opened Wrappers
  import opened Models
  import opened Seqs
  import opened Alignment
  import opened Blocks
  import Ranges

  /** The three buckets of `splitTimings`. */
  datatype Split = Split(before: seq<Timing>, now: seq<Timing>, after: seq<Timing>)

  /** `timingHighlight` of a decoration. */
  datatype Highlight = Before | Now | After

  /** A Slate range over one leaf (`anchor` and `focus` share `path`) with its highlight. */
  datatype Decoration = Decoration(path: seq<nat>, anchor: int, focus: int, highlight: Highlight)

  /** The node entries Slate asks to decorate. */
  datatype Node = EditorNode | BlockNode(block: Block) | ContentNode(content: Content)

  /**
   * `splitTimings`: a partition of the timings around the playback time.
   * The word whose (closed) time span holds `time`, if the first word not yet
   * over is that word, is `now`; a time on a shared boundary belongs to the
   * earlier word.
   */
  function SplitTimings(timings: seq<Timing>, time: real): (s: Split)
    ensures s.before + s.now + s.after == timings
    ensures |s.now| <= 1
    ensures forall k :: 0 <= k < |s.before| ==> s.before[k].time.end < time
    ensures |s.now| == 1 ==> Ranges.Contains(s.now[0].time, time)
    ensures |s.now| == 0 && |s.after| > 0 ==> s.after[0].time.start > time && s.after[0].time.end >= time
    ensures (forall k :: 0 <= k < |timings| ==> timings[k].time.end < time) ==> s.before == timings
  {
    var i := FindIndex(timings, (t: Timing) => t.time.end >= time);
    assert forall k :: 0 <= k < |timings| && (k < i || i == -1) ==> timings[k].time.end < time;
    SplitAt(timings, time, i)
  }

  /** The buckets once the first entry not yet over, `i` (or -1), is known. */
  function SplitAt(timings: seq<Timing>, time: real, i: int): (s: Split)
    requires -1 <= i < |timings|
    requires forall k :: 0 <= k < |timings| && (k < i || i == -1) ==> timings[k].time.end < time
    requires i >= 0 ==> timings[i].time.end >= time
    ensures s.before + s.now + s.after == timings
    ensures |s.now| <= 1
    ensures forall k :: 0 <= k < |s.before| ==> s.before[k].time.end < time
    ensures |s.now| == 1 ==> Ranges.Contains(s.now[0].time, time)
    ensures |s.now| == 0 && |s.after| > 0 ==> s.after[0].time.start > time && s.after[0].time.end >= time
    ensures (forall k :: 0 <= k < |timings| ==> timings[k].time.end < time) ==> s.before == timings
  {
    if i == -1 then
      Split(timings, [], [])
    else if Ranges.Contains(timings[i].time, time) then
      assert timings == timings[..i] + [timings[i]] + timings[i + 1..];
      Split(timings[..i], [timings[i]], timings[i + 1..])
    else
      assert timings == timings[..i] + timings[i..];
      Split(timings[..i], [], timings[i..])
  }

  /** `rangeForTimings`: from the first entry's start to the last entry's end; 0..0 when empty. */
  function RangeForTimings(timings: seq<Timing>, path: seq<nat>, highlight: Highlight): (d: Decoration)
    ensures d.path == path && d.highlight == highlight
    ensures |timings| == 0 ==> d.anchor == d.focus == 0
  {
    if |timings| > 0 then Decoration(path, timings[0].chars.start, timings[|timings| - 1].chars.end, highlight)
    else Decoration(path, 0, 0, highlight)
  }

  /**
   * `handleDecorate`. `None` stands for the TypeError the source raises when a
   * Content has no timings: it reads `timings[0].time` unguarded.
   */
  function HandleDecorate(node: Node, path: seq<nat>, currentTime: real): (r: Option<seq<Decoration>>)
    ensures r.None? <==> node.ContentNode? && |node.content.timings| == 0
    ensures !node.ContentNode? ==> r == Some([])
    ensures r.Some? && node.ContentNode? ==> |r.value| == 1 || |r.value| == 3
    ensures r.Some? ==> forall d :: d in r.value ==> d.path == path
  {
    match node
    case EditorNode => Some([])
    case BlockNode(_) => Some([])
    case ContentNode(c) =>
      var timings := c.timings;
      if |timings| == 0 then None
      else if timings[0].time.start > currentTime then
        Some([RangeForTimings(timings, path, After)])
      else if timings[|timings| - 1].time.end < currentTime then
        Some([RangeForTimings(timings, path, Before)])
      else
        var s := SplitTimings(timings, currentTime);
        Some([RangeForTimings(s.before, path, Before), RangeForTimings(s.now, path, Now),
              RangeForTimings(s.after, path, After)])
  }

  /**
   * The offset-to-time lookup of `onClick`: the first timing whose span ends
   * at or after the offset; if the offset lies in that span, the word's start
   * time plus 0.01 s, otherwise (gap, or past every span) no seek.
   */
  function SeekTime(timings: seq<Timing>, offset: int): (r: Option<real>)
    ensures r.Some? ==> exists k :: 0 <= k < |timings| && IsClickedTiming(timings, offset, k) &&
                          r.value == timings[k].time.start + 0.01
    ensures forall k :: 0 <= k < |timings| && IsClickedTiming(timings, offset, k) ==>
              r == Some(timings[k].time.start + 0.01)
  {
    var i := FindIndex(timings, (t: Timing) => t.chars.end >= offset);
    if i == -1 then None
    else if Ranges.Contains(timings[i].chars.AsRange(), offset as real) then Some(timings[i].time.start + 0.01)
    else None
  }

  /** Entry `k` is the first whose span ends at or after `offset`, and its span holds `offset`. */
  predicate IsClickedTiming(timings: seq<Timing>, offset: int, k: nat)
    requires k < |timings|
  {
    && timings[k].chars.start <= offset <= timings[k].chars.end
    && forall j :: 0 <= j < k ==> timings[j].chars.end < offset
  }

  // ---------------------------------------------------------------------------
  // Properties

  /** The four outcomes of `handleDecorate` for a Content node with timings. */
  lemma DecorateOutcomes(c: Content, path: seq<nat>, t: real)
    requires |c.timings| > 0
    ensures var T := c.timings;
            var r := HandleDecorate(ContentNode(c), path, t);
            && r.Some?
            && (T[0].time.start > t ==>
                  r.value == [Decoration(path, T[0].chars.start, T[|T| - 1].chars.end, After)])
            && (T[0].time.start <= t && T[|T| - 1].time.end < t ==>
                  r.value == [Decoration(path, T[0].chars.start, T[|T| - 1].chars.end, Before)])
            && (T[0].time.start <= t <= T[|T| - 1].time.end ==>
                  var s := SplitTimings(T, t);
                  r.value == [RangeForTimings(s.before, path, Before), RangeForTimings(s.now, path, Now),
                              RangeForTimings(s.after, path, After)])
  {
  }

  /** Nodes other than Content are never decorated. */
  lemma OnlyContentIsDecorated(node: Node, path: seq<nat>, t: real)
    requires !node.ContentNode?
    ensures HandleDecorate(node, path, t) == Some([])
  {
  }

  /** Time spans that are well formed and follow each other. */
  predicate TimeOrdered(timings: seq<Timing>)
  {
    && (forall j :: 0 <= j < |timings| ==> timings[j].time.start <= timings[j].time.end)
    && (forall j, l :: 0 <= j < l < |timings| ==> timings[j].time.end <= timings[l].time.start)
  }

  /**
   * While word `k` is playing (its span holds the time and the previous word
   * has ended), the `now` highlight is exactly word `k`'s characters, with the
   * earlier words before it and the later words after it.
   */
  lemma NowHighlightsPlayingWord(c: Content, path: seq<nat>, t: real, k: nat)
    requires k < |c.timings| && TimeOrdered(c.timings)
    requires Ranges.Contains(c.timings[k].time, t)
    requires k == 0 || c.timings[k - 1].time.end < t
    ensures HandleDecorate(ContentNode(c), path, t) ==
              Some([RangeForTimings(c.timings[..k], path, Before),
                    Decoration(path, c.timings[k].chars.start, c.timings[k].chars.end, Now),
                    RangeForTimings(c.timings[k + 1..], path, After)])
  {
    var T := c.timings;
    var last := |T| - 1;
    assert T[0].time.start <= t by {
      if k > 0 {
        assert T[0].time.start <= T[0].time.end <= T[k].time.start;
      }
    }
    assert T[last].time.end >= t by {
      if k < last {
        assert T[k].time.end <= T[last].time.start <= T[last].time.end;
      }
    }
    var i := FindIndex(T, (x: Timing) => x.time.end >= t);
    assert i == k by {
      forall j | 0 <= j < k
        ensures T[j].time.end < t
      {
        if j < k - 1 {
          assert T[j].time.end <= T[k - 1].time.start <= T[k - 1].time.end;
        }
      }
    }
  }

  /**
   * The character spans of a Content lie within its text and start in strictly
   * increasing order (what `TimingsOrdered` proves for a built Content).
   */
  predicate SpansInText(c: Content)
  {
    && (forall k :: 0 <= k < |c.timings| ==> 0 <= c.timings[k].chars.start <= c.timings[k].chars.end <= |c.text|)
    && (forall k, l :: 0 <= k < l < |c.timings| ==> c.timings[k].chars.start < c.timings[l].chars.start)
  }

  /**
   * For a Content built by `createContent`, every decoration stays on that
   * leaf and spans a well-formed piece of its text.
   */
  lemma DecorationsWithinText(words: seq<Word>, editable: bool, path: seq<nat>, t: real)
    ensures var c := Content(Timings(words), FlatText(words), editable);
            forall d :: d in DecorateGuarded(ContentNode(c), path, t) ==>
              d.path == path && 0 <= d.anchor <= d.focus <= |c.text|
  {
    TimingsOrdered(words);
    DecorationsWithinSpans(Content(Timings(words), FlatText(words), editable), path, t);
  }

  /** The same for any Content whose spans are in bounds and ordered. */
  lemma DecorationsWithinSpans(c: Content, path: seq<nat>, t: real)
    requires SpansInText(c)
    ensures forall d :: d in DecorateGuarded(ContentNode(c), path, t) ==>
              d.path == path && 0 <= d.anchor <= d.focus <= |c.text|
  {
    DecorationsAreBuckets(c, path, t);
    forall d | d in DecorateGuarded(ContentNode(c), path, t)
      ensures d.path == path && 0 <= d.anchor <= d.focus <= |c.text|
    {
      var a, b :| 0 <= a <= b <= |c.timings| && d == RangeForTimings(c.timings[a..b], path, d.highlight);
      BucketWithinText(c, a, b, path, d.highlight);
    }
  }

  /** Every decoration of a Content is the range of a run of consecutive timings. */
  lemma DecorationsAreBuckets(c: Content, path: seq<nat>, t: real)
    ensures forall d :: d in DecorateGuarded(ContentNode(c), path, t) ==>
              exists a, b :: 0 <= a <= b <= |c.timings| && d == RangeForTimings(c.timings[a..b], path, d.highlight)
  {
    var T := c.timings;
    var ds := DecorateGuarded(ContentNode(c), path, t);
    assert T[0..|T|] == T;
    if |T| == 0 {
      assert ds == [];
    } else if T[0].time.start > t {
      assert ds == [RangeForTimings(T[0..|T|], path, After)];
    } else if T[|T| - 1].time.end < t {
      assert ds == [RangeForTimings(T[0..|T|], path, Before)];
    } else {
      var s := SplitTimings(T, t);
      var nb, nn := |s.before|, |s.before| + |s.now|;
      assert s.before == T[0..nb] && s.now == T[nb..nn] && s.after == T[nn..|T|];
      assert ds == [RangeForTimings(T[0..nb], path, Before), RangeForTimings(T[nb..nn], path, Now),
                    RangeForTimings(T[nn..|T|], path, After)];
    }
  }

  /** A contiguous run of a Content's timings decorates a well-formed piece of its text. */
  lemma BucketWithinText(c: Content, a: nat, b: nat, path: seq<nat>, h: Highlight)
    requires SpansInText(c) && a <= b <= |c.timings|
    ensures var d := RangeForTimings(c.timings[a..b], path, h);
            d.path == path && 0 <= d.anchor <= d.focus <= |c.text|
  {
    var T := c.timings;
    if a < b {
      assert a < b - 1 ==> T[a].chars.start < T[b - 1].chars.start;
      assert T[a..b][0] == T[a] && T[a..b][b - a - 1] == T[b - 1];
    }
  }

  /**
   * Clicking anywhere inside the span of a word of a Content built by
   * `createContent` seeks to that word's start time plus 0.01 s: spans are
   * disjoint and ordered, so the lookup cannot stop at an earlier word.
   */
  lemma ClickSeeksToClickedWord(words: seq<Word>, k: nat, offset: int)
    requires k < |Timings(words)|
    requires Timings(words)[k].chars.start <= offset <= Timings(words)[k].chars.end
    ensures SeekTime(Timings(words), offset) == Some(Timings(words)[k].time.start + 0.01)
  {
    var T := Timings(words);
    TimingsOrdered(words);
    forall j | 0 <= j < k
      ensures T[j].chars.end < offset
    {
      assert T[j].chars.end < T[j + 1].chars.start;
      assert j + 1 < k ==> T[j + 1].chars.start < T[k].chars.start;
    }
    assert IsClickedTiming(T, offset, k);
  }

  /** An offset that no span holds (a gap or past the end) never seeks. */
  lemma ClickOutsideSpansDoesNotSeek(timings: seq<Timing>, offset: int)
    requires forall k :: 0 <= k < |timings| ==> !(timings[k].chars.start <= offset <= timings[k].chars.end)
    ensures SeekTime(timings, offset) == None
  {
  }

  // ---------------------------------------------------------------------------
  // A Content without timings

  /**
   * A speaker turn made only of punctuation words (here a "." that carries
   * a speaker, after a word of another speaker) is grouped on its own by
   * `createBlocks`, becomes a Content with no timings, and `handleDecorate`
   * then throws instead of returning decorations.
   */
  lemma PunctuationOnlyTurnBreaksDecorate(r: Ranges.Range, path: seq<nat>, t: real)
    ensures var turns := [[Word("a", r, Some("B"))], [Word(".", r, Some("A"))]];
            && IsParagraphing(Flatten(turns), turns)
            && forall ps :: IsParagraphing(Flatten(turns), ps) ==> ps == turns
    ensures var words := [Word(".", r, Some("A"))];
            && Timings(words) == []
            && FlatText(words) == "."
            && HandleDecorate(ContentNode(Content(Timings(words), FlatText(words), true)), path, t) == None
  {
    var turns := [[Word("a", r, Some("B"))], [Word(".", r, Some("A"))]];
    FlattenSnoc([], [Word("a", r, Some("B"))]);
    FlattenSnoc([[Word("a", r, Some("B"))]], [Word(".", r, Some("A"))]);
    assert [] + [[Word("a", r, Some("B"))]] == [[Word("a", r, Some("B"))]];
    assert [[Word("a", r, Some("B"))]] + [[Word(".", r, Some("A"))]] == turns;
    assert Flatten(turns) == [Word("a", r, Some("B")), Word(".", r, Some("A"))];
    assert IsParagraphing(Flatten(turns), turns);
    forall ps | IsParagraphing(Flatten(turns), ps)
      ensures ps == turns
    {
      ParagraphingUnique(Flatten(turns), ps, turns);
    }
    var words := [Word(".", r, Some("A"))];
    assert IsPunct(words[0]);
    assert Separator(words, 0) == "";
    assert TextUpTo(words, 1) == TextUpTo(words, 0) + "." + "";
    assert TimingsUpTo(words, 1) == TimingsUpTo(words, 0);
  }

  /**
   * `handleDecorate` with a guard on empty timings: a Content with no timings
   * gets no decorations; otherwise the result is the one the source computes.
   */
  function DecorateGuarded(node: Node, path: seq<nat>, currentTime: real): (ds: seq<Decoration>)
    ensures node.ContentNode? && |node.content.timings| == 0 ==> ds == []
    ensures HandleDecorate(node, path, currentTime).Some? ==> ds == HandleDecorate(node, path, currentTime).value
  {
    if node.ContentNode? && |node.content.timings| == 0 then []
    else HandleDecorate(node, path, currentTime).value
  }

  /** The guarded version is total: the source's result exists for every other node. */
  lemma DecorateGuardedIsTotal(node: Node, path: seq<nat>, t: real)
    ensures HandleDecorate(node, path, t).None? <==> (node.ContentNode? && |node.content.timings| == 0)
  {
  }

  // ---------------------------------------------------------------------------
  // Worked examples

  /** "the" (0.0-0.5 s) and "cat" (0.5-1.0 s) at 0.7 s: "the" is before, "cat" is now. */
  lemma DecorateExample()
    ensures var words := [Word("the", Ranges.Range(0.0, 0.5), None), Word("cat", Ranges.Range(0.5, 1.0), None)];
            var c := Content(Timings(words), FlatText(words), true);
            HandleDecorate(ContentNode(c), [0], 0.7) ==
              Some([Decoration([0], 0, 3, Before), Decoration([0], 4, 7, Now), Decoration([0], 0, 0, After)])
  {
    var words := [Word("the", Ranges.Range(0.0, 0.5), None), Word("cat", Ranges.Range(0.5, 1.0), None)];
    assert !IsPunct(words[0]) && !IsPunct(words[1]);
    assert TextUpTo(words, 1) == "the ";
    assert TimingsUpTo(words, 1) == [Timing(CharRange(0, 3), Ranges.Range(0.0, 0.5))];
    assert Timings(words) == [Timing(CharRange(0, 3), Ranges.Range(0.0, 0.5)), Timing(CharRange(4, 7), Ranges.Range(0.5, 1.0))];
    var T := Timings(words);
    assert FindIndex(T, (x: Timing) => x.time.end >= 0.7) == 1;
  }

  /** A span 5..9 for 1.0-2.0 s: offset 9 seeks to 1.01 s; offset 10 (past it) does not seek. */
  lemma SeekBoundaryExample()
    ensures var T := [Timing(CharRange(5, 9), Ranges.Range(1.0, 2.0))];
            SeekTime(T, 9) == Some(1.01) && SeekTime(T, 10) == None
  {
  }
}
