/**
 * The closed numeric interval of src/utils/range.ts, used for audio times
 * (seconds) and, through a conversion, for character offsets.
 */
module Ranges {

  datatype Range = Range(start: real, end: real)

  /** `Range.contains`: closed at both ends. */
  predicate Contains(r: Range, x: real)
    ensures Contains(r, x) ==> r.start <= r.end
  {
    x >= r.start && x <= r.end
  }

  /** `Range.before`: the range lies entirely before `x`. */
  predicate Before(r: Range, x: real)
    ensures Before(r, x) ==> !Contains(r, x)
  {
    x > r.end
  }

  /** `Range.after`: the range lies entirely after `x`. */
  predicate After(r: Range, x: real)
    ensures After(r, x) ==> !Contains(r, x)
    ensures r.start <= r.end && After(r, x) ==> !Before(r, x)
  {
    x < r.start
  }

  /** Both end points belong to the range. */
  lemma ContainsIsClosed(r: Range)
    requires r.start <= r.end
    ensures Contains(r, r.start) && Contains(r, r.end)
    ensures !Before(r, r.end) && !After(r, r.start)
  {
  }

  /** For a well-formed range, every point is exactly one of before, inside or after. */
  lemma Trichotomy(r: Range, x: real)
    requires r.start <= r.end
    ensures Before(r, x) || Contains(r, x) || After(r, x)
    ensures !(Before(r, x) && Contains(r, x))
    ensures !(Contains(r, x) && After(r, x))
    ensures !(Before(r, x) && After(r, x))
  {
  }
}
