/**
 * The tiered match resolver: for one transaction, the archive is searched with each reference
 * token, then with "counterparty amount", then with the amount alone, and the first hit that is
 * not a bank statement wins. The search is an oracle from a request to the ranked list of
 * matching documents; the service keeps a log of the requests it was sent.
 */
module Matching {
  import opened Wrappers
  import opened Text
  import opened Dates
  import opened Domain
  import opened Refs

  /** Every search asks for one page of this many results. */
  const PageSize := 10

  /** Lookback of the reference and counterparty tiers for credits (incoming payments). */
  const CreditLookback := 365
  /** Lookback of the reference and counterparty tiers for debits. */
  const DebitLookback := 30
  /** Look-ahead of the reference and counterparty tiers. */
  const LookAhead := 14
  /** Half-width of the amount-only tier's window. */
  const NarrowDays := 5

  /** The archive's answers: the ranked documents each request matches; a request not in the
      table matches nothing. */
  type SearchIndex = map<Query, seq<Doc>>

  function Ranked(index: SearchIndex, q: Query): seq<Doc> {
    if q in index then index[q] else []
  }

  /** The first page of a ranked result list. */
  function FirstPage(ranked: seq<Doc>): (r: seq<Doc>)
    ensures |r| == if |ranked| < PageSize then |ranked| else PageSize
    ensures r == ranked[..|r|]
  {
    if |ranked| <= PageSize then ranked else ranked[..PageSize]
  }

  /** Every result carries the bank-statement tag. */
  predicate AllStatements(results: seq<Doc>, statementTag: int) {
    forall i :: 0 <= i < |results| ==> statementTag in results[i].tags
  }

  /** `find_non_statement`: the first result not tagged as a bank statement. */
  function FindNonStatement(results: seq<Doc>, statementTag: int): Option<Doc> {
    if results == [] then None
    else if statementTag in results[0].tags then FindNonStatement(results[1..], statementTag)
    else Some(results[0])
  }

  /**
   * Nothing is found exactly when every result is a statement; what is found is a result that is
   * not a statement, and every result ranked before it is one.
   */
  lemma {:induction false} FindNonStatementSpec(results: seq<Doc>, statementTag: int)
    ensures var r := FindNonStatement(results, statementTag);
            (r.None? <==> AllStatements(results, statementTag))
            && (r.Some? ==> statementTag !in r.value.tags
                            && exists i :: 0 <= i < |results| && results[i] == r.value
                                           && AllStatements(results[..i], statementTag))
  {
    if results != [] {
      var r := FindNonStatement(results, statementTag);
      assert forall i :: 1 <= i < |results| ==> results[i] == results[1..][i - 1];
      if statementTag in results[0].tags {
        FindNonStatementSpec(results[1..], statementTag);
        if r.Some? {
          var i :| 0 <= i < |results[1..]| && results[1..][i] == r.value
                   && AllStatements(results[1..][..i], statementTag);
          assert results[i + 1] == r.value;
          assert results[..i + 1] == [results[0]] + results[1..][..i];
        }
      } else {
        assert results[..0] == [];
      }
    }
  }

  /** `lookback`: a year for credits, a month for debits. */
  function Lookback(amount: int): (days: int)
    ensures days == CreditLookback <==> amount > 0
    ensures amount <= 0 ==> days == DebitLookback
  {
    if amount > 0 then CreditLookback else DebitLookback
  }

  /** The bounds of the reference and counterparty tiers; none when the date does not parse. */
  function WideWindow(tx: Tx): (Option<int>, Option<int>) {
    match ParseIsoDate(tx.date)
    case None => (None, None)
    case Some(d) => (Some(d - Lookback(tx.amount)), Some(d + LookAhead))
  }

  /** The bounds of the amount-only tier; none when the date does not parse. */
  function NarrowWindow(tx: Tx): (Option<int>, Option<int>) {
    match ParseIsoDate(tx.date)
    case None => (None, None)
    case Some(d) => (Some(d - NarrowDays), Some(d + NarrowDays))
  }

  /** `abs_amount`: the magnitude with two decimals. */
  function AbsAmountText(tx: Tx): string {
    FormatCents(Abs(tx.amount))
  }

  function RefQueries(refs: seq<string>, w: (Option<int>, Option<int>)): (qs: seq<Query>)
    ensures |qs| == |refs|
    ensures forall i :: 0 <= i < |refs| ==> qs[i] == Query(refs[i], w.0, w.1)
  {
    if refs == [] then [] else [Query(refs[0], w.0, w.1)] + RefQueries(refs[1..], w)
  }

  /** The requests of the three tiers, in the order they are tried. */
  function Plan(tx: Tx): seq<Query> {
    var w := WideWindow(tx);
    var n := NarrowWindow(tx);
    RefQueries(RefTokens(tx), w)
    + [Query(tx.counterparty + " " + AbsAmountText(tx), w.0, w.1),
       Query(AbsAmountText(tx), n.0, n.1)]
  }

  /** The outcome of trying the requests of a plan: the document found, and the requests sent. */
  datatype Resolution = Resolution(doc: Option<Doc>, calls: seq<Query>)

  /** Tries the requests in order and stops after the first whose page holds a non-statement. */
  function FirstHit(index: SearchIndex, plan: seq<Query>, statementTag: int): Resolution {
    if plan == [] then Resolution(None, [])
    else
      var doc := Found(index, plan[0], statementTag);
      if doc.Some? then Resolution(doc, [plan[0]])
      else
        var rest := FirstHit(index, plan[1..], statementTag);
        Resolution(rest.doc, [plan[0]] + rest.calls)
  }

  /** What one request yields: the first non-statement on its page. */
  function Found(index: SearchIndex, q: Query, statementTag: int): Option<Doc> {
    FindNonStatement(FirstPage(Ranked(index, q)), statementTag)
  }

  /** `match_transaction` as a value: the resolution of the transaction's plan. */
  function Resolve(index: SearchIndex, tx: Tx, statementTag: int): Resolution {
    FirstHit(index, Plan(tx), statementTag)
  }

  // ---- the archive's search, with its request log ----

  class SearchService {
    /** The ranked documents each request matches. */
    const index: SearchIndex
    /** Every request sent so far, oldest first. */
    var calls: seq<Query>

    constructor(index: SearchIndex)
      ensures this.index == index && calls == []
    {
      this.index := index;
      calls := [];
    }

    /** `search_documents`: logs the request and returns the first page of its results. */
    method Search(q: Query) returns (results: seq<Doc>)
      modifies this
      ensures results == FirstPage(Ranked(index, q))
      ensures calls == old(calls) + [q]
    {
      results := FirstPage(Ranked(index, q));
      calls := calls + [q];
    }
  }

  /** Sends one request and filters its page. */
  method TryQuery(svc: SearchService, q: Query, statementTag: int) returns (doc: Option<Doc>)
    modifies svc
    ensures doc == Found(svc.index, q, statementTag)
    ensures svc.calls == old(svc.calls) + [q]
  {
    var results := svc.Search(q);
    doc := FindNonStatement(results, statementTag);
  }

  /** Sends the requests in order and stops after the first that finds a non-statement. */
  method TryInOrder(svc: SearchService, plan: seq<Query>, statementTag: int) returns (doc: Option<Doc>)
    modifies svc
    ensures var r := FirstHit(svc.index, plan, statementTag);
            doc == r.doc && svc.calls == old(svc.calls) + r.calls
  {
    ghost var index := svc.index;
    ghost var calls0 := svc.calls;
    doc := None;
    var i := 0;
    while i < |plan|
      invariant i <= |plan|
      invariant svc.calls == calls0 + plan[..i]
      invariant forall j :: 0 <= j < i ==> Found(index, plan[j], statementTag).None?
      invariant doc.None?
    {
      doc := TryQuery(svc, plan[i], statementTag);
      assert plan[..i + 1] == plan[..i] + [plan[i]];
      AppendAssoc(calls0, plan[..i], [plan[i]]);
      if doc.Some? {
        FirstHitAfterMisses(index, plan, statementTag, i);
        return;
      }
      i := i + 1;
    }
    FirstHitAllMiss(index, plan, statementTag);
  }

  /** `match_transaction`: the reference tier, then the counterparty tier, then the amount tier,
      each returning as soon as it finds a document; proved to send exactly the requests of the
      resolution and to return its document. */
  method MatchTransaction(svc: SearchService, tx: Tx, statementTag: int) returns (doc: Option<Doc>)
    modifies svc
    ensures doc == Resolve(svc.index, tx, statementTag).doc
    ensures svc.calls == old(svc.calls) + Resolve(svc.index, tx, statementTag).calls
  {
    ghost var calls0 := svc.calls;
    var refs := ExtractRefs(tx);
    var w := WideWindow(tx);
    var amount := AbsAmountText(tx);
    var n := NarrowWindow(tx);
    var byRef := RefQueries(refs, w);
    var byCounterparty := Query(tx.counterparty + " " + amount, w.0, w.1);
    var byAmount := Query(amount, n.0, n.1);
    doc := TryInOrder(svc, byRef, statementTag);
    if doc.Some? {
      ReferenceTier(svc.index, tx, statementTag, byRef, byCounterparty, byAmount);
      return;
    }
    FirstHitMissSendsAll(svc.index, byRef, statementTag);
    doc := TryQuery(svc, byCounterparty, statementTag);
    if doc.Some? {
      CounterpartyTier(svc.index, tx, statementTag, byRef, byCounterparty, byAmount);
      AppendAssoc(calls0, byRef, [byCounterparty]);
      return;
    }
    doc := TryQuery(svc, byAmount, statementTag);
    AmountTier(svc.index, tx, statementTag, byRef, byCounterparty, byAmount);
    assert [byCounterparty] + [byAmount] == [byCounterparty, byAmount];
    AppendAssoc(calls0 + byRef, [byCounterparty], [byAmount]);
    AppendAssoc(calls0, byRef, [byCounterparty, byAmount]);
  }

  /** The three ways `match_transaction` can end, one lemma each. */
  lemma ReferenceTier(index: SearchIndex, tx: Tx, statementTag: int, byRef: seq<Query>, byCounterparty: Query, byAmount: Query)
    requires byRef == RefQueries(RefTokens(tx), WideWindow(tx))
    requires byCounterparty == Query(tx.counterparty + " " + AbsAmountText(tx), WideWindow(tx).0, WideWindow(tx).1)
    requires byAmount == Query(AbsAmountText(tx), NarrowWindow(tx).0, NarrowWindow(tx).1)
    requires FirstHit(index, byRef, statementTag).doc.Some?
    ensures Resolve(index, tx, statementTag) == FirstHit(index, byRef, statementTag)
  {
    PlanSplit(index, tx, statementTag, byRef, byCounterparty, byAmount);
  }

  lemma CounterpartyTier(index: SearchIndex, tx: Tx, statementTag: int, byRef: seq<Query>, byCounterparty: Query, byAmount: Query)
    requires byRef == RefQueries(RefTokens(tx), WideWindow(tx))
    requires byCounterparty == Query(tx.counterparty + " " + AbsAmountText(tx), WideWindow(tx).0, WideWindow(tx).1)
    requires byAmount == Query(AbsAmountText(tx), NarrowWindow(tx).0, NarrowWindow(tx).1)
    requires FirstHit(index, byRef, statementTag).doc.None?
    requires Found(index, byCounterparty, statementTag).Some?
    ensures Resolve(index, tx, statementTag) == Resolution(Found(index, byCounterparty, statementTag), byRef + [byCounterparty])
  {
    PlanSplit(index, tx, statementTag, byRef, byCounterparty, byAmount);
  }

  lemma AmountTier(index: SearchIndex, tx: Tx, statementTag: int, byRef: seq<Query>, byCounterparty: Query, byAmount: Query)
    requires byRef == RefQueries(RefTokens(tx), WideWindow(tx))
    requires byCounterparty == Query(tx.counterparty + " " + AbsAmountText(tx), WideWindow(tx).0, WideWindow(tx).1)
    requires byAmount == Query(AbsAmountText(tx), NarrowWindow(tx).0, NarrowWindow(tx).1)
    requires FirstHit(index, byRef, statementTag).doc.None?
    requires Found(index, byCounterparty, statementTag).None?
    ensures Resolve(index, tx, statementTag) == Resolution(Found(index, byAmount, statementTag), byRef + [byCounterparty, byAmount])
  {
    PlanSplit(index, tx, statementTag, byRef, byCounterparty, byAmount);
  }

  /** The resolution of the plan, tier by tier. */
  lemma PlanSplit(index: SearchIndex, tx: Tx, statementTag: int, byRef: seq<Query>, byCounterparty: Query, byAmount: Query)
    requires byRef == RefQueries(RefTokens(tx), WideWindow(tx))
    requires byCounterparty == Query(tx.counterparty + " " + AbsAmountText(tx), WideWindow(tx).0, WideWindow(tx).1)
    requires byAmount == Query(AbsAmountText(tx), NarrowWindow(tx).0, NarrowWindow(tx).1)
    ensures var r1 := FirstHit(index, byRef, statementTag);
            var d2 := Found(index, byCounterparty, statementTag);
            var d3 := Found(index, byAmount, statementTag);
            Resolve(index, tx, statementTag)
            == if r1.doc.Some? then r1
               else if d2.Some? then Resolution(d2, byRef + [byCounterparty])
               else Resolution(d3, byRef + [byCounterparty, byAmount])
  {
    var tiers := [byCounterparty, byAmount];
    assert Plan(tx) == byRef + tiers;
    FirstHitAppend(index, byRef, tiers, statementTag);
    assert tiers[0] == byCounterparty && tiers[1..] == [byAmount] && [byAmount][1..] == [];
    assert FirstHit(index, [byAmount][1..], statementTag) == Resolution(None, []);
    assert FirstHit(index, [byAmount], statementTag) == Resolution(Found(index, byAmount, statementTag), [byAmount]);
  }

  /** The resolution of a concatenated plan: the first part's, if that found something, else the
      second part's after all the first part's requests. */
  lemma {:induction false} FirstHitAppend(index: SearchIndex, p1: seq<Query>, p2: seq<Query>, statementTag: int)
    ensures var r1 := FirstHit(index, p1, statementTag);
            var r2 := FirstHit(index, p2, statementTag);
            FirstHit(index, p1 + p2, statementTag)
            == if r1.doc.Some? then r1 else Resolution(r2.doc, p1 + r2.calls)
    decreases |p1|
  {
    if p1 == [] {
      assert p1 + p2 == p2;
    } else {
      ConsAppend(p1, p2);
      if Found(index, p1[0], statementTag).Some? {
        FirstHitFound(index, p1, statementTag);
        FirstHitFound(index, p1 + p2, statementTag);
      } else {
        FirstHitMiss(index, p1, statementTag);
        FirstHitMiss(index, p1 + p2, statementTag);
        FirstHitAppend(index, p1[1..], p2, statementTag);
        AppendAssoc([p1[0]], p1[1..], FirstHit(index, p2, statementTag).calls);
      }
    }
  }

  /** A plan that finds nothing has sent all its requests. */
  lemma {:induction false} FirstHitMissSendsAll(index: SearchIndex, plan: seq<Query>, statementTag: int)
    ensures FirstHit(index, plan, statementTag).doc.None? ==> FirstHit(index, plan, statementTag).calls == plan
    decreases |plan|
  {
    if plan != [] {
      FirstHitMissSendsAll(index, plan[1..], statementTag);
      assert plan == [plan[0]] + plan[1..];
    }
  }

  /** When every request misses, all are sent and nothing is found. */
  lemma {:induction false} FirstHitAllMiss(index: SearchIndex, plan: seq<Query>, statementTag: int)
    requires forall j :: 0 <= j < |plan| ==> Found(index, plan[j], statementTag).None?
    ensures FirstHit(index, plan, statementTag) == Resolution(None, plan)
    decreases |plan|
  {
    if plan != [] {
      assert forall j :: 0 <= j < |plan| - 1 ==> plan[1..][j] == plan[j + 1];
      FirstHitAllMiss(index, plan[1..], statementTag);
      assert plan == [plan[0]] + plan[1..];
    }
  }

  /** After misses on the first `i` requests, a hit on the `i`-th decides the resolution. */
  lemma {:induction false} FirstHitAfterMisses(index: SearchIndex, plan: seq<Query>, statementTag: int, i: nat)
    requires i < |plan|
    requires forall j :: 0 <= j < i ==> Found(index, plan[j], statementTag).None?
    requires Found(index, plan[i], statementTag).Some?
    ensures FirstHit(index, plan, statementTag) == Resolution(Found(index, plan[i], statementTag), plan[..i + 1])
  {
    if i == 0 {
      FirstHitFound(index, plan, statementTag);
      assert plan[..1] == [plan[0]];
    } else {
      FirstHitMiss(index, plan, statementTag);
      var tail := plan[1..];
      assert forall j :: 0 <= j < i - 1 ==> tail[j] == plan[j + 1];
      assert tail[i - 1] == plan[i];
      FirstHitAfterMisses(index, tail, statementTag, i - 1);
      PrefixCons(plan, i);
    }
  }

  /** A first request that finds a document ends the search. */
  lemma FirstHitFound(index: SearchIndex, plan: seq<Query>, statementTag: int)
    requires plan != [] && Found(index, plan[0], statementTag).Some?
    ensures FirstHit(index, plan, statementTag) == Resolution(Found(index, plan[0], statementTag), [plan[0]])
  {
  }

  /** A first request that finds nothing is followed by the rest of the plan. */
  lemma FirstHitMiss(index: SearchIndex, plan: seq<Query>, statementTag: int)
    requires plan != [] && Found(index, plan[0], statementTag).None?
    ensures var rest := FirstHit(index, plan[1..], statementTag);
            FirstHit(index, plan, statementTag) == Resolution(rest.doc, [plan[0]] + rest.calls)
  {
  }

  // ---- properties of the resolution ----

  /**
   * The requests sent are a prefix of the plan; every request before the last found only
   * statements; the document returned is the first non-statement of the last request's page;
   * nothing is returned only if the whole plan was tried in vain.
   */
  lemma FirstHitCharacterized(index: SearchIndex, plan: seq<Query>, statementTag: int)
    ensures var r := FirstHit(index, plan, statementTag);
            |r.calls| <= |plan| && r.calls == plan[..|r.calls|]
            && (forall j :: 0 <= j < |r.calls| - 1 ==> Found(index, plan[j], statementTag).None?)
            && (r.doc.None? <==> r.calls == plan
                                 && forall j :: 0 <= j < |plan| ==> Found(index, plan[j], statementTag).None?)
            && (r.doc.Some? ==> |r.calls| > 0
                                && r.doc == Found(index, plan[|r.calls| - 1], statementTag))
  {
    FirstHitPrefix(index, plan, statementTag);
    FirstHitMisses(index, plan, statementTag);
    FirstHitMissSendsAll(index, plan, statementTag);
    if FirstHit(index, plan, statementTag).doc.None? {
      FirstHitPrefixMisses(index, plan, statementTag);
    }
    FirstHitLast(index, plan, statementTag);
  }

  /** The requests sent are a prefix of the plan. */
  lemma {:induction false} FirstHitPrefix(index: SearchIndex, plan: seq<Query>, statementTag: int)
    ensures var r := FirstHit(index, plan, statementTag);
            |r.calls| <= |plan| && r.calls == plan[..|r.calls|]
    decreases |plan|
  {
    if plan != [] {
      FirstHitPrefix(index, plan[1..], statementTag);
      var rest := FirstHit(index, plan[1..], statementTag);
      if Found(index, plan[0], statementTag).None? {
        assert [plan[0]] + plan[1..][..|rest.calls|] == plan[..|rest.calls| + 1];
      }
    }
  }

  /** Every request sent before the last found only statements. */
  lemma {:induction false} FirstHitMisses(index: SearchIndex, plan: seq<Query>, statementTag: int)
    ensures var r := FirstHit(index, plan, statementTag);
            forall j :: 0 <= j < |r.calls| - 1 && j < |plan| ==> Found(index, plan[j], statementTag).None?
    decreases |plan|
  {
    if plan != [] {
      FirstHitMisses(index, plan[1..], statementTag);
      assert forall j :: 1 <= j < |plan| ==> plan[j] == plan[1..][j - 1];
    }
  }

  /** With nothing found, every request of the plan found only statements. */
  lemma {:induction false} FirstHitPrefixMisses(index: SearchIndex, plan: seq<Query>, statementTag: int)
    requires FirstHit(index, plan, statementTag).doc.None?
    ensures forall j :: 0 <= j < |plan| ==> Found(index, plan[j], statementTag).None?
    decreases |plan|
  {
    if plan != [] {
      FirstHitPrefixMisses(index, plan[1..], statementTag);
      assert forall j :: 1 <= j < |plan| ==> plan[j] == plan[1..][j - 1];
    }
  }

  /** A document found is what the last request sent found. */
  lemma {:induction false} FirstHitLast(index: SearchIndex, plan: seq<Query>, statementTag: int)
    ensures var r := FirstHit(index, plan, statementTag);
            r.doc.Some? ==> 0 < |r.calls| <= |plan| && r.doc == Found(index, plan[|r.calls| - 1], statementTag)
    decreases |plan|
  {
    if plan != [] {
      FirstHitLast(index, plan[1..], statementTag);
      var rest := FirstHit(index, plan[1..], statementTag);
      if rest.doc.Some? && Found(index, plan[0], statementTag).None? {
        assert plan[|rest.calls|] == plan[1..][|rest.calls| - 1];
      }
    }
  }

  /** A resolved document is never a bank statement, and it was on the page of a request that
      was sent. */
  lemma NeverStatement(index: SearchIndex, tx: Tx, statementTag: int)
    requires Resolve(index, tx, statementTag).doc.Some?
    ensures var r := Resolve(index, tx, statementTag);
            statementTag !in r.doc.value.tags
            && exists j :: 0 <= j < |r.calls| && r.doc.value in FirstPage(Ranked(index, r.calls[j]))
  {
    var r := Resolve(index, tx, statementTag);
    FirstHitCharacterized(index, Plan(tx), statementTag);
    var last := |r.calls| - 1;
    FindNonStatementSpec(FirstPage(Ranked(index, r.calls[last])), statementTag);
    assert r.calls[last] == Plan(tx)[last];
  }

  /** The plan: one request per reference token, in token order, then "counterparty amount",
      then the amount alone; the first two tiers share the wide window. */
  lemma PlanShape(tx: Tx)
    ensures var p := Plan(tx);
            var refs := RefTokens(tx);
            var w := WideWindow(tx);
            |p| == |refs| + 2
            && (forall i :: 0 <= i < |refs| ==> p[i].text == refs[i] && (p[i].from, p[i].to) == w)
            && p[|refs|].text == tx.counterparty + " " + FormatCents(Abs(tx.amount))
            && (p[|refs|].from, p[|refs|].to) == w
            && p[|refs| + 1].text == FormatCents(Abs(tx.amount))
            && (p[|refs| + 1].from, p[|refs| + 1].to) == NarrowWindow(tx)
  {
  }

  /** An unparseable date sends every request without bounds. */
  lemma BadDateNoBounds(tx: Tx)
    requires ParseIsoDate(tx.date).None?
    ensures forall q :: q in Plan(tx) ==> q.from.None? && q.to.None?
  {
    PlanShape(tx);
  }

  /**
   * With a parseable date every request is bounded on both sides by a window holding that day:
   * the first two tiers reach back 365 days for a credit and 30 otherwise and 14 days ahead, the
   * amount-only tier 5 days either way, inside the wide window.
   */
  lemma WindowsAroundDate(tx: Tx, d: int)
    requires ParseIsoDate(tx.date) == Some(d)
    ensures forall q :: q in Plan(tx) ==> q.from.Some? && q.to.Some?
                                          && q.from.value <= d <= q.to.value
    ensures var w := WideWindow(tx);
            w.0.value == d - (if tx.amount > 0 then 365 else 30) && w.1.value == d + 14
    ensures var n := NarrowWindow(tx);
            n.0.value == d - 5 && n.1.value == d + 5
    ensures WideWindow(tx).0.value <= NarrowWindow(tx).0.value
            && NarrowWindow(tx).1.value <= WideWindow(tx).1.value
  {
    PlanShape(tx);
  }

  /** A transaction with a reference whose first request finds a non-statement is resolved by
      that single request. */
  lemma ReferenceTierWins(index: SearchIndex, tx: Tx, statementTag: int)
    requires tx.ref != ""
    requires Found(index, Query(tx.ref, WideWindow(tx).0, WideWindow(tx).1), statementTag).Some?
    ensures Resolve(index, tx, statementTag).calls == [Query(tx.ref, WideWindow(tx).0, WideWindow(tx).1)]
  {
    PlanShape(tx);
    RefFirst(tx);
  }

  lemma CentsExample()
    ensures FormatCents(Abs(-12050)) == "120.50"
  {
    assert NatToString(120) == "120" by {
      assert NatToString(1) == "1";
      assert NatToString(12) == "12";
    }
  }

  /**
   * The debit of 120.50 to "Acme Ltd" described as "Nr. 55231": the reference search for
   * "55231" finds no document that is not a statement, the search for "Acme Ltd 120.50" ranks
   * invoice 42 first, so exactly these two requests are sent and invoice 42 is the match.
   */
  lemma AcmeExample(index: SearchIndex, statementTag: int, tx: Tx, invoice: Doc)
    requires tx.date == "2025-03-10" && tx.amount == -12050 && tx.counterparty == "Acme Ltd"
    requires tx.description == "Nr. 55231" && tx.ref == "" && tx.matchedDocId.None?
    requires invoice == Doc(42, Some("Acme Invoice 55231"), [])
    requires Found(index, Query("55231", WideWindow(tx).0, WideWindow(tx).1), statementTag).None?
    requires var ranked := Ranked(index, Query("Acme Ltd 120.50", WideWindow(tx).0, WideWindow(tx).1));
             |ranked| > 0 && ranked[0] == invoice
    ensures Resolve(index, tx, statementTag)
            == Resolution(Some(invoice), [Query("55231", WideWindow(tx).0, WideWindow(tx).1),
                                          Query("Acme Ltd 120.50", WideWindow(tx).0, WideWindow(tx).1)])
    ensures RecordMatch(tx, invoice).matchedDocId == Some(42)
    ensures RecordMatch(tx, invoice).matchedTitle == Some("Acme Invoice 55231")
  {
    var w := WideWindow(tx);
    NumberOnlyExample(tx);
    CentsExample();
    var q1 := Query("55231", w.0, w.1);
    var q2 := Query("Acme Ltd 120.50", w.0, w.1);
    var byRef := RefQueries(RefTokens(tx), w);
    assert byRef == [q1];
    PlanSplit(index, tx, statementTag, byRef, q2, Query(AbsAmountText(tx), NarrowWindow(tx).0, NarrowWindow(tx).1));
    assert FirstHit(index, byRef, statementTag) == Resolution(None, [q1]) by {
      assert byRef[1..] == [];
    }
    assert FirstPage(Ranked(index, q2))[0] == invoice;
    assert Found(index, q2, statementTag) == Some(invoice);
  }
}
