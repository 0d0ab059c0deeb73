/**
 * The string helpers of src/components/Editor/nodes/SpeakerBoxView.tsx: the
 * speaker filter of the select box, the duration label, the escaping of
 * query words for a regular expression, and the assembly of highlighted
 * tokens from the matches of that expression.
 */
module SpeakerBox {
  import opened Strings
  import opened Seqs

  // ---------------------------------------------------------------------------
  // filterSpeaker

  /**
   * `filterSpeaker`: with `exactMatch`, case-insensitive equality; without,
   * a case-insensitive substring test.
   */
  function FilterSpeaker(query: string, speaker: string, exactMatch: bool): (keep: bool)
    ensures exactMatch ==> (keep <==> ToLower(speaker) == ToLower(query))
    ensures !exactMatch ==> (keep <==> exists i :: OccursAt(ToLower(speaker), ToLower(query), i))
  {
    var normalizedSpeaker := ToLower(speaker);
    var normalizedQuery := ToLower(query);
    if exactMatch then normalizedSpeaker == normalizedQuery
    else IndexOf(normalizedSpeaker, normalizedQuery) >= 0
  }

  /** The empty query keeps every speaker in the non-exact mode. */
  lemma EmptyQueryKeepsAll(speaker: string)
    ensures FilterSpeaker("", speaker, false)
  {
    assert OccursAt(ToLower(speaker), ToLower(""), 0);
  }

  /** An exact match is also kept by the substring test. */
  lemma ExactImpliesSubstring(query: string, speaker: string)
    requires FilterSpeaker(query, speaker, true)
    ensures FilterSpeaker(query, speaker, false)
  {
    assert OccursAt(ToLower(speaker), ToLower(query), 0);
  }

  // ---------------------------------------------------------------------------
  // formatDuration

  /** `Math.floor` on a number. */
  function Floor(x: real): (f: int)
    ensures f as real <= x < f as real + 1.0
  {
    x.Floor
  }

  /** JavaScript's `x % 60` on numbers: the remainder of the division truncated toward zero. */
  function Rem60(x: real): (r: real)
    ensures x >= 0.0 ==> 0.0 <= r < 60.0
    ensures x < 0.0 ==> -60.0 < r <= 0.0
    ensures Floor((x - r) / 60.0) as real * 60.0 == x - r
  {
    var q := x / 60.0;
    var t := if q >= 0.0 then Floor(q) else -Floor(-q);
    x - 60.0 * t as real
  }

  /** The two numbers `formatDuration` prints: minutes and the seconds in the minute. */
  function DurationParts(duration: real): (int, int)
  {
    (Floor(duration / 60.0), Floor(Rem60(duration)))
  }

  /** `formatDuration`: `minutes:seconds`, neither padded. */
  function FormatDuration(duration: real): string
  {
    var parts := DurationParts(duration);
    IntToString(parts.0) + ":" + IntToString(parts.1)
  }

  /**
   * For a non-negative duration the seconds lie in 0..59 and the two parts
   * recombine to the whole number of seconds.
   */
  lemma DurationPartsRecombine(duration: real)
    requires duration >= 0.0
    ensures var parts := DurationParts(duration);
            0 <= parts.1 <= 59 && parts.0 >= 0 && parts.0 * 60 + parts.1 == Floor(duration)
  {
    var minutes := Floor(duration / 60.0);
    var r := Rem60(duration);
    assert r == duration - 60.0 * minutes as real;
    var seconds := Floor(r);
    assert (minutes * 60 + seconds) as real <= duration < (minutes * 60 + seconds) as real + 1.0;
  }

  function NumeralLength(n: int): nat
  {
    if n < 0 then 0 else |NatToString(n)|
  }

  /**
   * The label reads back: up to the colon the decimal minutes, after it the
   * decimal seconds, for every non-negative duration.
   */
  lemma {:induction false} FormatDurationReadsBack(duration: real)
    requires duration >= 0.0
    ensures var parts := DurationParts(duration);
            var shown := FormatDuration(duration);
            var k := NumeralLength(parts.0);
            && k < |shown| && shown[k] == ':'
            && IsNumeral(shown[..k]) && IsNumeral(shown[k + 1..])
            && ParseNat(shown[..k]) == parts.0 && ParseNat(shown[k + 1..]) == parts.1
  {
    DurationPartsRecombine(duration);
    var minutes, seconds := DurationParts(duration).0, DurationParts(duration).1;
    var m, s := NatToString(minutes), NatToString(seconds);
    var shown := FormatDuration(duration);
    assert shown == m + ":" + s;
    assert shown[..|m|] == m;
    assert shown[|m| + 1..] == s;
    ParseNatToString(minutes);
    ParseNatToString(seconds);
  }

  /** Sixty-five seconds read "1:5": the seconds are not zero-padded. */
  lemma FormatDurationExample()
    ensures FormatDuration(65.0) == "1:5"
  {
    assert DurationParts(65.0) == (1, 5);
  }

  // ---------------------------------------------------------------------------
  // escapeRegExpChars

  /** The characters the escaping pattern lists. */
  const Specials: string := ".*+?^=!:${}()|[]/\\"

  predicate IsSpecial(c: char)
  {
    c in Specials
  }

  function CountSpecials(s: string): nat
  {
    if |s| == 0 then 0 else (if IsSpecial(s[0]) then 1 else 0) + CountSpecials(s[1..])
  }

  /** `escapeRegExpChars`: a backslash before each special character, other characters unchanged. */
  function EscapeRegExpChars(s: string): (e: string)
    ensures |e| == |s| + CountSpecials(s)
  {
    if |s| == 0 then ""
    else if IsSpecial(s[0]) then ['\\', s[0]] + EscapeRegExpChars(s[1..])
    else [s[0]] + EscapeRegExpChars(s[1..])
  }

  /** One character: a special character gets a backslash in front, any other stays as it is. */
  lemma EscapeOneCharacter(c: char)
    ensures EscapeRegExpChars([c]) == if IsSpecial(c) then ['\\', c] else [c]
  {
    assert [c][1..] == [];
  }

  /**
   * Escaping works character by character: the escape of a concatenation is
   * the concatenation of the escapes. With `EscapeOneCharacter` this fixes the
   * output completely.
   */
  lemma {:induction false} EscapeConcat(a: string, b: string)
    ensures EscapeRegExpChars(a + b) == EscapeRegExpChars(a) + EscapeRegExpChars(b)
    decreases |a|
  {
    if |a| == 0 {
      assert a + b == b;
    } else {
      assert (a + b)[0] == a[0];
      assert (a + b)[1..] == a[1..] + b;
      EscapeConcat(a[1..], b);
    }
  }

  /** Reading an escaped string: a backslash stands for the character after it. */
  function Unescape(e: string): string
  {
    if |e| == 0 then ""
    else if e[0] == '\\' && |e| >= 2 then [e[1]] + Unescape(e[2..])
    else [e[0]] + Unescape(e[1..])
  }

  /** Escaping loses nothing: unescaping gives back the text. */
  lemma {:induction false} UnescapeEscape(s: string)
    ensures Unescape(EscapeRegExpChars(s)) == s
  {
    if |s| > 0 {
      UnescapeEscape(s[1..]);
      var rest := EscapeRegExpChars(s[1..]);
      if IsSpecial(s[0]) {
        assert (['\\', s[0]] + rest)[2..] == rest;
      } else {
        assert s[0] != '\\';
        assert ([s[0]] + rest)[1..] == rest;
      }
    }
  }

  /** A string with no special characters is left as it is. */
  lemma {:induction false} PlainTextUnescaped(s: string)
    requires forall k :: 0 <= k < |s| ==> !IsSpecial(s[k])
    ensures EscapeRegExpChars(s) == s
  {
    if |s| > 0 {
      PlainTextUnescaped(s[1..]);
    }
  }

  // ---------------------------------------------------------------------------
  // highlightText

  /** `\s`, restricted to the ASCII whitespace characters. */
  predicate IsSpace(c: char)
  {
    c == ' ' || c == '\t' || c == '\n' || c == '\r' || c == '\U{B}' || c == '\U{C}'
  }

  /** The longest prefix of `s` without whitespace. */
  function WordPrefix(s: string): (n: nat)
    ensures n <= |s|
    ensures forall k :: 0 <= k < n ==> !IsSpace(s[k])
    ensures n < |s| ==> IsSpace(s[n])
  {
    if |s| == 0 || IsSpace(s[0]) then 0 else 1 + WordPrefix(s[1..])
  }

  /** `query.split(/\s+/).filter(word => word.length > 0)`: the non-empty runs of non-whitespace. */
  function QueryWords(q: string): (words: seq<string>)
    ensures forall w :: w in words ==> |w| > 0 && forall k :: 0 <= k < |w| ==> !IsSpace(w[k])
    decreases |q|
  {
    if |q| == 0 then []
    else if IsSpace(q[0]) then QueryWords(q[1..])
    else
      var n := WordPrefix(q);
      [q[..n]] + QueryWords(q[n..])
  }

  /** A query has no words exactly when it is all whitespace. */
  lemma {:induction false} NoWordsIffBlank(q: string)
    ensures QueryWords(q) == [] <==> forall k :: 0 <= k < |q| ==> IsSpace(q[k])
    decreases |q|
  {
    if |q| > 0 {
      if IsSpace(q[0]) {
        NoWordsIffBlank(q[1..]);
        assert forall k :: 1 <= k < |q| ==> q[k] == q[1..][k - 1];
      }
    }
  }

  /** The query with its whitespace removed. */
  function NonSpace(q: string): string
  {
    if |q| == 0 then "" else (if IsSpace(q[0]) then "" else [q[0]]) + NonSpace(q[1..])
  }

  /** A whitespace-free prefix passes through `NonSpace` unchanged. */
  lemma {:induction false} NonSpacePrefix(q: string, n: nat)
    requires n <= |q| && forall k :: 0 <= k < n ==> !IsSpace(q[k])
    ensures NonSpace(q) == q[..n] + NonSpace(q[n..])
  {
    if n == 0 {
      assert q[..0] == "" && q[0..] == q;
    } else {
      NonSpacePrefix(q[1..], n - 1);
      assert q[1..][..n - 1] == q[1..n] && q[1..][n - 1..] == q[n..];
      assert q[..n] == [q[0]] + q[1..n];
    }
  }

  /**
   * The query words, read one after another, are the query without its
   * whitespace: splitting loses and invents no other character.
   */
  lemma {:induction false} QueryWordsJoin(q: string)
    ensures Flatten(QueryWords(q)) == NonSpace(q)
    decreases |q|
  {
    if |q| > 0 {
      if IsSpace(q[0]) {
        QueryWordsJoin(q[1..]);
      } else {
        var n := WordPrefix(q);
        var rest := QueryWords(q[n..]);
        QueryWordsJoin(q[n..]);
        FlattenAppend([q[..n]], rest);
        assert [q[..n]][..0] == [];
        NonSpacePrefix(q, n);
      }
    }
  }

  /** A rendered token: plain text, or a `<strong>` element keyed by the match's end index. */
  datatype Token = Plain(text: string) | Strong(key: nat, text: string)

  /** A match of the expression: where it starts and how long it is. */
  datatype Match = Match(index: nat, length: nat)

  /**
   * What `regexp.exec` can report in turn: non-empty matches inside `text`,
   * each starting at or after the end of the one before.
   */
  predicate ValidMatches(text: string, matches: seq<Match>)
  {
    && (forall k :: 0 <= k < |matches| ==> matches[k].length > 0 && matches[k].index + matches[k].length <= |text|)
    && (forall k :: 0 < k < |matches| ==> FollowsPrevious(matches, k))
  }

  /** Match `k` starts at or after the end of match `k - 1`. */
  predicate FollowsPrevious(matches: seq<Match>, k: nat)
    requires 0 < k < |matches|
  {
    matches[k - 1].index + matches[k - 1].length <= matches[k].index
  }

  /** The text the tokens render, read in order. */
  function Rendered(tokens: seq<Token>): string
  {
    if |tokens| == 0 then "" else Rendered(tokens[..|tokens| - 1]) + tokens[|tokens| - 1].text
  }

  /** The `<strong>` tokens, in order. */
  function Strongs(tokens: seq<Token>): seq<Token>
  {
    if |tokens| == 0 then []
    else Strongs(tokens[..|tokens| - 1]) + (if tokens[|tokens| - 1].Strong? then [tokens[|tokens| - 1]] else [])
  }

  /** The `<strong>` token a match produces: the matched text, keyed by the match end. */
  function MatchToken(text: string, m: Match): Token
    requires m.index + m.length <= |text|
  {
    Strong(m.index + m.length, text[m.index..m.index + m.length])
  }

  /** The `<strong>` tokens of the first `n` matches, in order. */
  function MatchTokens(text: string, matches: seq<Match>, n: nat): (ts: seq<Token>)
    requires ValidMatches(text, matches) && n <= |matches|
    ensures |ts| == n
  {
    if n == 0 then [] else MatchTokens(text, matches, n - 1) + [MatchToken(text, matches[n - 1])]
  }

  lemma RenderedSnoc(tokens: seq<Token>, t: Token)
    ensures Rendered(tokens + [t]) == Rendered(tokens) + t.text
  {
    assert (tokens + [t])[..|tokens|] == tokens;
  }

  lemma StrongsSnoc(tokens: seq<Token>, t: Token)
    ensures Strongs(tokens + [t]) == Strongs(tokens) + (if t.Strong? then [t] else [])
  {
    assert (tokens + [t])[..|tokens|] == tokens;
  }

  /** No plain token is empty. */
  predicate NoEmptyPlain(tokens: seq<Token>)
  {
    forall k :: 0 <= k < |tokens| && tokens[k].Plain? ==> tokens[k].text != ""
  }

  /** Where the text rendered so far ends after the first `n` matches: the end of match `n - 1`. */
  function EndOf(matches: seq<Match>, n: nat): nat
    requires n <= |matches|
  {
    if n == 0 then 0 else matches[n - 1].index + matches[n - 1].length
  }

  /**
   * The tokens one match adds: the non-empty text between the previous match
   * end and the match start, then the match's `<strong>`.
   */
  function StepTokens(text: string, lastIndex: nat, m: Match): seq<Token>
    requires lastIndex <= m.index && m.index + m.length <= |text|
  {
    (if lastIndex < m.index then [Plain(text[lastIndex..m.index])] else []) + [MatchToken(text, m)]
  }

  /** The tokens pushed while walking the first `n` matches. */
  function TokensUpTo(text: string, matches: seq<Match>, n: nat): seq<Token>
    requires ValidMatches(text, matches) && n <= |matches|
  {
    if n == 0 then []
    else
      assert n - 1 > 0 ==> FollowsPrevious(matches, n - 1);
      TokensUpTo(text, matches, n - 1) + StepTokens(text, EndOf(matches, n - 1), matches[n - 1])
  }

  /** The tokens of one match continue the rendering from `lastIndex` to the match end. */
  lemma StepTokensRender(text: string, tokens: seq<Token>, lastIndex: nat, m: Match)
    requires lastIndex <= m.index && m.index + m.length <= |text|
    requires Rendered(tokens) == text[..lastIndex] && NoEmptyPlain(tokens)
    ensures var next := tokens + StepTokens(text, lastIndex, m);
            && Rendered(next) == text[..m.index + m.length]
            && NoEmptyPlain(next)
            && Strongs(next) == Strongs(tokens) + [MatchToken(text, m)]
  {
    var strong := MatchToken(text, m);
    var mid := tokens;
    if lastIndex < m.index {
      var gap := Plain(text[lastIndex..m.index]);
      RenderedSnoc(tokens, gap);
      StrongsSnoc(tokens, gap);
      assert text[..m.index] == text[..lastIndex] + text[lastIndex..m.index];
      mid := tokens + [gap];
    }
    assert Rendered(mid) == text[..m.index] && NoEmptyPlain(mid) && Strongs(mid) == Strongs(tokens);
    RenderedSnoc(mid, strong);
    StrongsSnoc(mid, strong);
    assert text[..m.index + m.length] == text[..m.index] + strong.text;
    assert tokens + StepTokens(text, lastIndex, m) == mid + [strong];
  }

  /**
   * After the first `n` matches the tokens render the text up to the end of
   * match `n - 1`, hold no empty plain token, and their `<strong>` tokens are
   * those matches, in order.
   */
  lemma {:induction false} TokensUpToRender(text: string, matches: seq<Match>, n: nat)
    requires ValidMatches(text, matches) && n <= |matches|
    ensures EndOf(matches, n) <= |text|
    ensures var tokens := TokensUpTo(text, matches, n);
            && Rendered(tokens) == text[..EndOf(matches, n)]
            && NoEmptyPlain(tokens)
            && Strongs(tokens) == MatchTokens(text, matches, n)
  {
    if n > 0 {
      TokensUpToRender(text, matches, n - 1);
      if n - 1 > 0 {
        assert FollowsPrevious(matches, n - 1);
      }
      StepTokensRender(text, TokensUpTo(text, matches, n - 1), EndOf(matches, n - 1), matches[n - 1]);
    }
  }

  /** After the last match: the rest of the text, when non-empty, completes the rendering. */
  lemma AppendRest(text: string, tokens: seq<Token>, lastIndex: nat)
    requires lastIndex <= |text| && Rendered(tokens) == text[..lastIndex] && NoEmptyPlain(tokens)
    ensures var final := tokens + (if lastIndex < |text| then [Plain(text[lastIndex..])] else []);
            Rendered(final) == text && NoEmptyPlain(final) && Strongs(final) == Strongs(tokens)
  {
    if lastIndex < |text| {
      RenderedSnoc(tokens, Plain(text[lastIndex..]));
      StrongsSnoc(tokens, Plain(text[lastIndex..]));
      assert text == text[..lastIndex] + text[lastIndex..];
    } else {
      assert text[..lastIndex] == text;
      assert tokens + [] == tokens;
    }
  }

  /**
   * `highlightText` over the matches of the query's expression: with no query
   * words the text alone; otherwise the tokens render the text exactly, no
   * plain token is empty, and the `<strong>` tokens are the matches, in order.
   */
  method HighlightText(text: string, query: string, matches: seq<Match>) returns (tokens: seq<Token>)
    requires ValidMatches(text, matches)
    ensures QueryWords(query) == [] ==> tokens == [Plain(text)]
    ensures QueryWords(query) != [] ==>
              && Rendered(tokens) == text
              && NoEmptyPlain(tokens)
              && Strongs(tokens) == MatchTokens(text, matches, |matches|)
    ensures QueryWords(query) != [] ==>
              var end := EndOf(matches, |matches|);
              end <= |text| &&
              tokens == TokensUpTo(text, matches, |matches|) + (if end < |text| then [Plain(text[end..])] else [])
  {
    var words := QueryWords(query);
    if |words| == 0 {
      return [Plain(text)];
    }
    var lastIndex := 0;
    tokens := [];
    for k := 0 to |matches|
      invariant lastIndex == EndOf(matches, k)
      invariant tokens == TokensUpTo(text, matches, k)
    {
      var m := matches[k];
      if k > 0 {
        assert FollowsPrevious(matches, k);
      }
      ghost var pushed := tokens;
      var before := text[lastIndex..m.index];
      if |before| > 0 {
        tokens := tokens + [Plain(before)];
      }
      var end := m.index + m.length;
      tokens := tokens + [Strong(end, text[m.index..end])];
      assert tokens == pushed + StepTokens(text, lastIndex, m);
      lastIndex := end;
    }
    TokensUpToRender(text, matches, |matches|);
    ghost var prev := tokens;
    var rest := text[lastIndex..];
    if |rest| > 0 {
      tokens := tokens + [Plain(rest)];
    }
    AppendRest(text, prev, lastIndex);
  }
}
