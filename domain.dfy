/**
 * The records the matching engine works on: a bank-statement transaction, a document as the
 * archive's search returns it, and a search request.
 */
module Domain {
  import opened Wrappers

  /** Archive document ids are positive, so Python's truthiness test on an id is a presence test. */
  type DocId = x: int | x > 0 witness 1

  /**
   * One statement line. `amount` is in cents (positive for credits, negative for debits);
   * `ref` and `description` are "" when the extraction left them empty; the match fields are
   * absent until a match is recorded.
   */
  datatype Tx = Tx(
    date: string,
    amount: int,
    counterparty: string,
    description: string,
    ref: string,
    matchedDocId: Option<DocId>,
    matchedTitle: Option<string>)

  predicate IsMatched(tx: Tx) {
    tx.matchedDocId.Some?
  }

  /** The data-model invariant: the id and the title of a match are present together. */
  predicate FieldsPaired(tx: Tx) {
    tx.matchedDocId.Some? <==> tx.matchedTitle.Some?
  }

  /** A search hit: id, optional title, and the ids of its tags. */
  datatype Doc = Doc(id: DocId, title: Option<string>, tags: seq<int>)

  /** One call of the archive's full-text search; the bounds are inclusive day ordinals and an
      absent bound is not sent. */
  datatype Query = Query(text: string, from: Option<int>, to: Option<int>)

  /** Records a match on a transaction: both fields at once, a missing title as "". */
  function RecordMatch(tx: Tx, doc: Doc): (r: Tx)
    ensures IsMatched(r) && FieldsPaired(r)
    ensures r.matchedDocId == Some(doc.id) && r.matchedTitle == Some(doc.title.GetOr(""))
    ensures r.(matchedDocId := tx.matchedDocId, matchedTitle := tx.matchedTitle) == tx
  {
    tx.(matchedDocId := Some(doc.id), matchedTitle := Some(doc.title.GetOr("")))
  }
}
