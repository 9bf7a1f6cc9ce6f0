/**
 * The search box of the document history: the generated documents whose employee name or
 * template name contains the search term, letter case ignored.
 */
module DocumentHistory {
  import opened Wrappers
  import opened Strings
  import opened Collections

  /** A row of `generated_documents`, with the two columns the search looks at. */
  datatype Document = Document(id: string, employeeName: string, templateName: string)

  /** The filter callback: either name, lower-cased, contains the lower-cased term. */
  predicate Matches(term: string, doc: Document) {
    Includes(Lower(doc.employeeName), Lower(term)) || Includes(Lower(doc.templateName), Lower(term))
  }

  function MatchesTerm(term: string): Document -> bool {
    doc => Matches(term, doc)
  }

  /**
   * `documents?.filter(...)`: nothing while the query has not returned (`documents` is
   * `undefined`), the matching documents once it has.
   */
  function Search(documents: Option<seq<Document>>, term: string): (r: Option<seq<Document>>)
    ensures r.Some? <==> documents.Some?
  {
    match documents
    case None => None
    case Some(docs) => Some(Filter(docs, MatchesTerm(term)))
  }

  /**
   * A document is kept, as often as it occurs, exactly when it matches; the others are dropped;
   * and what is kept stays in the order of the query.
   */
  lemma SearchKeepsMatches(docs: seq<Document>, term: string, d: Document)
    ensures var r := Search(Some(docs), term).value;
            multiset(r)[d] == (if Matches(term, d) then multiset(docs)[d] else 0)
            && (d in r <==> d in docs && Matches(term, d))
            && IsSubsequence(r, docs)
  {
    var r := Search(Some(docs), term).value;
    FilterMultiplicity(docs, MatchesTerm(term), d);
    FilterIsSubsequence(docs, MatchesTerm(term));
    assert d in r <==> multiset(r)[d] > 0;
    assert d in docs <==> multiset(docs)[d] > 0;
  }

  /** Every text contains the empty string. */
  lemma IncludesEmpty(s: string)
    ensures Includes(s, "")
  {
    assert OccursAt(s, 0, "");
  }

  /** With the search box empty every document is listed. */
  lemma EmptyTermKeepsAll(documents: Option<seq<Document>>)
    ensures Search(documents, "") == documents
  {
    if documents.Some? {
      var docs := documents.value;
      forall i | 0 <= i < |docs| ensures MatchesTerm("")(docs[i]) {
        IncludesEmpty(Lower(docs[i].employeeName));
      }
      FilterAll(docs, MatchesTerm(""));
    }
  }

  /** Two terms that differ only in letter case find the same documents. */
  lemma SearchIgnoresCase(documents: Option<seq<Document>>, term: string, other: string)
    requires Lower(term) == Lower(other)
    ensures Search(documents, term) == Search(documents, other)
  {
    if documents.Some? {
      FilterSame(documents.value, MatchesTerm(term), MatchesTerm(other));
    }
  }

  /** In particular, the term and its lower-cased form find the same documents. */
  lemma SearchByLowerCase(documents: Option<seq<Document>>, term: string)
    ensures Search(documents, Lower(term)) == Search(documents, term)
  {
    LowerIdempotent(term);
    SearchIgnoresCase(documents, Lower(term), term);
  }
}
