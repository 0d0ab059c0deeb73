/**
 * The glossary list of src/components/GlossaryPanel/GlossaryPanel.tsx: the
 * terms shown for a search, the test for offering "Add term", and the
 * append of a saved term to the term array.
 */
module GlossaryPanel {
  import opened Wrappers
  import opened Seqs
  import opened Strings

  datatype Fields = Fields(comment: Option<string>, url: Option<string>)

  datatype GlossaryTerm = GlossaryTerm(id: string, text: string, fields: Fields)

  /** A term matches a search when its lower-cased text contains the lower-cased search. */
  predicate MatchesSearch(t: GlossaryTerm, search: string)
  {
    IndexOf(ToLower(t.text), ToLower(search)) >= 0
  }

  /** `terms.filter(...)`: the matching terms, in their original order. */
  function FilterTerms(terms: seq<GlossaryTerm>, search: string): (kept: seq<GlossaryTerm>)
    ensures |kept| <= |terms|
    ensures forall t :: t in kept ==> t in terms && MatchesSearch(t, search)
    ensures forall t :: t in terms && MatchesSearch(t, search) ==> t in kept
    ensures forall t :: multiset(kept)[t] == if MatchesSearch(t, search) then multiset(terms)[t] else 0
  {
    if |terms| == 0 then []
    else
      var rest := FilterTerms(terms[1..], search);
      assert terms == [terms[0]] + terms[1..];
      if MatchesSearch(terms[0], search) then [terms[0]] + rest else rest
  }

  /** The filter keeps terms in their original order. */
  lemma {:induction false} FilterIsSubsequence(terms: seq<GlossaryTerm>, search: string)
    ensures IsSubsequence(FilterTerms(terms, search), terms)
  {
    if |terms| > 0 {
      FilterIsSubsequence(terms[1..], search);
      if !MatchesSearch(terms[0], search) {
        SkipFirst(FilterTerms(terms[1..], search), terms);
      }
    }
  }

  /** A subsequence of `b[1..]` is a subsequence of `b`. */
  lemma {:induction false} SkipFirst<T>(a: seq<T>, b: seq<T>)
    requires |b| > 0 && IsSubsequence(a, b[1..])
    ensures IsSubsequence(a, b)
    decreases |b|, 0
  {
    if |a| > 0 && a[0] == b[0] {
      DropHead(a, b[1..]);
    }
  }

  /** Dropping the first element of a subsequence keeps it a subsequence. */
  lemma {:induction false} DropHead<T>(a: seq<T>, c: seq<T>)
    requires |a| > 0 && IsSubsequence(a, c)
    ensures IsSubsequence(a[1..], c)
    decreases |c|, 1
  {
    if a[0] == c[0] {
      SkipFirst(a[1..], c);
    } else {
      DropHead(a, c[1..]);
      SkipFirst(a[1..], c);
    }
  }

  /**
   * `items`: nothing while the glossary is not loaded; every term when the
   * search is null or empty; otherwise the matching terms in order.
   */
  function Items(terms: Option<seq<GlossaryTerm>>, searchTerm: Option<string>): (items: seq<GlossaryTerm>)
    ensures terms.None? ==> items == []
    ensures terms.Some? && (searchTerm.None? || searchTerm.value == "") ==> items == terms.value
    ensures terms.Some? && searchTerm.Some? ==> forall t :: t in items ==> t in terms.value && MatchesSearch(t, searchTerm.value)
    ensures terms.Some? && searchTerm.Some? ==> forall t :: t in terms.value && MatchesSearch(t, searchTerm.value) ==> t in items
    ensures terms.Some? && searchTerm.Some? && searchTerm.value != "" ==>
              forall t :: multiset(items)[t] == if MatchesSearch(t, searchTerm.value) then multiset(terms.value)[t] else 0
  {
    match terms
    case None => []
    case Some(ts) =>
      if searchTerm.None? || searchTerm.value == "" then ts
      else FilterTerms(ts, searchTerm.value)
  }

  /** The items are always drawn from the terms, in their order. */
  lemma ItemsAreSubsequence(terms: seq<GlossaryTerm>, searchTerm: Option<string>)
    ensures IsSubsequence(Items(Some(terms), searchTerm), terms)
  {
    if searchTerm.None? || searchTerm.value == "" {
      SelfSubsequence(terms);
    } else {
      FilterIsSubsequence(terms, searchTerm.value);
    }
  }

  lemma {:induction false} SelfSubsequence<T>(s: seq<T>)
    ensures IsSubsequence(s, s)
  {
    if |s| > 0 {
      SelfSubsequence(s[1..]);
    }
  }

  /**
   * `showAddGlossaryTerm`: the search is non-empty, the glossary is loaded,
   * and no term's text is exactly the search (case matters here).
   */
  function ShowAddGlossaryTerm(searchTerm: Option<string>, terms: Option<seq<GlossaryTerm>>): (show: bool)
    ensures show <==> searchTerm.Some? && searchTerm.value != "" && terms.Some? &&
                      forall t :: t in terms.value ==> t.text != searchTerm.value
  {
    && searchTerm.Some? && searchTerm.value != ""
    && terms.Some?
    && FindIndex(terms.value, (t: GlossaryTerm) => t.text == searchTerm.value) == -1
  }

  /** Once a term with the searched text has been saved, "Add term" is no longer offered. */
  lemma SavedTermHidesAdd(searchTerm: string, terms: seq<GlossaryTerm>, saved: GlossaryTerm)
    requires saved.text == searchTerm
    ensures !ShowAddGlossaryTerm(Some(searchTerm), Some(terms + [saved]))
  {
    assert saved in terms + [saved];
  }

  /** The JavaScript array holding the terms; `push` changes it in place. */
  class TermArray {
    var elements: seq<GlossaryTerm>

    constructor(elements: seq<GlossaryTerm>)
      ensures this.elements == elements
    {
      this.elements := elements;
    }

    method Push(t: GlossaryTerm)
      modifies this
      ensures elements == old(elements) + [t]
    {
      elements := elements + [t];
    }
  }

  /** The `{ terms }` glossary object. */
  datatype Glossary = Glossary(terms: TermArray)

  /** The panel's glossary state (`useState<Glossary | null>`). */
  class Panel {
    var glossary: Option<Glossary>

    constructor()
      ensures glossary.None?
    {
      glossary := None;
    }

    /** The terms as the render reads them. */
    function Terms(): (terms: Option<seq<GlossaryTerm>>)
      reads this, if glossary.Some? then {glossary.value.terms} else {}
      ensures terms.Some? <==> glossary.Some?
    {
      if glossary.Some? then Some(glossary.value.terms.elements) else None
    }

    /**
     * The completion of `onSaveTermClick`: the term returned by the server is
     * pushed onto the current term array (a fresh empty one when none is
     * loaded), and the glossary is set to a new object holding that array.
     * Earlier terms are unchanged and the new term is last.
     */
    method OnTermSaved(newTerm: GlossaryTerm)
      modifies this, if glossary.Some? then {glossary.value.terms} else {}
      ensures glossary.Some?
      ensures old(glossary).Some? ==> glossary.value.terms == old(glossary).value.terms
      ensures Terms() == Some((if old(glossary).Some? then old(glossary.value.terms.elements) else []) + [newTerm])
    {
      var termArray: TermArray;
      if glossary.Some? {
        termArray := glossary.value.terms;
      } else {
        termArray := new TermArray([]);
      }
      termArray.Push(newTerm);
      glossary := Some(Glossary(termArray));
    }
  }
}
