/**
 * One audit run over the statements of a month: each statement's transactions come from the
 * cache when its id is a key there and from extraction otherwise; every unmatched transaction
 * is searched for; matches are recorded in place, so the cache ends up holding them; the
 * counters add up matched and unmatched transactions; and, when enabled, the statement's audit
 * note is rewritten.
 */
module Audit {
  import opened Wrappers
  import opened Text
  import opened Domain
  import opened Matching
  import opened Notes

  /** The cache of one month: statement id (as decimal text) to its transactions. */
  type Cache = map<string, seq<Tx>>

  function Key(id: DocId): string {
    NatToString(id)
  }

  lemma KeyInjective(a: DocId, b: DocId)
    ensures Key(a) == Key(b) <==> a == b
  {
    if Key(a) == Key(b) {
      NatToStringInjective(a, b);
    }
  }

  /**
   * Getting a statement's transactions: downloading and parsing the original, falling back to
   * the OCR text, and the language-model extraction. Which statements yield transactions is
   * fixed by `outcomes`; a statement that is not a key there is one whose content is empty or
   * whose extraction raised, and is skipped. Every attempt is logged.
   */
  class Extractor {
    const outcomes: map<DocId, seq<Tx>>
    var requested: seq<DocId>

    constructor(outcomes: map<DocId, seq<Tx>>)
      ensures this.outcomes == outcomes && requested == []
    {
      this.outcomes := outcomes;
      requested := [];
    }

    method Extract(id: DocId) returns (txs: Option<seq<Tx>>)
      modifies this
      ensures txs == (if id in outcomes then Some(outcomes[id]) else None)
      ensures requested == old(requested) + [id]
    {
      requested := requested + [id];
      txs := if id in outcomes then Some(outcomes[id]) else None;
    }
  }

  // ---- one statement ----

  /** The search for one transaction, as `match_transaction` runs it against the index. */
  function SearchFor(index: SearchIndex, statementTag: int): Tx -> Resolution {
    tx => Resolve(index, tx, statementTag)
  }

  /** `resolve` is the search against `index`: stated pointwise, and triggered only by the
      search itself, so that reasoning about the loops does not unfold it. */
  ghost predicate SearchesIndex(resolve: Tx -> Resolution, index: SearchIndex, statementTag: int) {
    forall t {:trigger Resolve(index, t, statementTag)} :: resolve(t) == Resolve(index, t, statementTag)
  }

  lemma SearchForSearches(index: SearchIndex, statementTag: int)
    ensures SearchesIndex(SearchFor(index, statementTag), index, statementTag)
  {
  }

  /** A transaction after its matching step: kept if already matched, else matched if the
      search finds a document. */
  function MatchOne(resolve: Tx -> Resolution, tx: Tx): (r: Tx)
    ensures IsMatched(tx) ==> r == tx
    ensures IsMatched(r) <==> IsMatched(tx) || resolve(tx).doc.Some?
    ensures FieldsPaired(tx) ==> FieldsPaired(r)
    ensures r.(matchedDocId := tx.matchedDocId, matchedTitle := tx.matchedTitle) == tx
  {
    if IsMatched(tx) then tx
    else if resolve(tx).doc.Some? then RecordMatch(tx, resolve(tx).doc.value)
    else tx
  }

  /** The search requests one transaction's step sends. */
  function CallsOf(resolve: Tx -> Resolution, tx: Tx): seq<Query> {
    if IsMatched(tx) then [] else resolve(tx).calls
  }

  datatype Outcome = Outcome(txs: seq<Tx>, matched: nat, unmatched: nat, calls: seq<Query>)

  /** One more transaction through the loop. */
  function Extend(resolve: Tx -> Resolution, o: Outcome, tx: Tx): Outcome {
    var tx' := MatchOne(resolve, tx);
    Outcome(o.txs + [tx'],
            o.matched + (if IsMatched(tx') then 1 else 0),
            o.unmatched + (if IsMatched(tx') then 0 else 1),
            o.calls + CallsOf(resolve, tx))
  }

  /** The matching loop over a statement's transactions, in order. */
  function MatchTxs(resolve: Tx -> Resolution, txs: seq<Tx>): Outcome
    decreases |txs|
  {
    if txs == [] then Outcome([], 0, 0, [])
    else Extend(resolve, MatchTxs(resolve, txs[..|txs| - 1]), txs[|txs| - 1])
  }

  /** One transaction of the loop: a matched one is skipped; otherwise the search runs and a
      document it finds is recorded on the transaction. */
  method MatchStep(svc: SearchService, statementTag: int, ghost resolve: Tx -> Resolution, tx: Tx)
    returns (updated: Tx)
    requires SearchesIndex(resolve, svc.index, statementTag)
    modifies svc
    ensures updated == MatchOne(resolve, tx)
    ensures svc.calls == old(svc.calls) + CallsOf(resolve, tx)
  {
    updated := tx;
    if !IsMatched(tx) {
      var doc := MatchTransaction(svc, tx, statementTag);
      if doc.Some? {
        updated := RecordMatch(tx, doc.value);
      }
    }
  }

  lemma UpdateInPlace(done: seq<Tx>, rest: seq<Tx>, x: Tx)
    requires |rest| > 0
    ensures (done + rest)[|done| := x] == (done + [x]) + rest[1..]
  {
  }

  /** The per-statement loop of `main`: each transaction is updated where it stands, and
      counted as matched or unmatched. */
  method MatchStatement(svc: SearchService, statementTag: int, ghost resolve: Tx -> Resolution, txs: seq<Tx>)
    returns (updated: seq<Tx>, matched: nat, unmatched: nat)
    requires SearchesIndex(resolve, svc.index, statementTag)
    modifies svc
    ensures var o := MatchTxs(resolve, txs);
            updated == o.txs && matched == o.matched && unmatched == o.unmatched
            && svc.calls == old(svc.calls) + o.calls
  {
    updated := txs;
    matched, unmatched := 0, 0;
    ghost var o := Outcome([], 0, 0, []);
    for i := 0 to |txs|
      invariant o == MatchTxs(resolve, txs[..i])
      invariant |o.txs| == i && updated == o.txs + txs[i..]
      invariant matched == o.matched && unmatched == o.unmatched
      invariant svc.calls == old(svc.calls) + o.calls
    {
      assert txs[..i + 1][..i] == txs[..i];
      var tx := MatchStep(svc, statementTag, resolve, txs[i]);
      UpdateInPlace(o.txs, txs[i..], tx);
      updated := updated[i := tx];
      if IsMatched(tx) {
        matched := matched + 1;
      } else {
        unmatched := unmatched + 1;
      }
      o := Extend(resolve, o, txs[i]);
    }
    assert txs[..|txs|] == txs;
  }

  /** The counters count the transactions: matched ones as matched, the rest as unmatched. */
  lemma {:induction false} MatchTxsCounts(resolve: Tx -> Resolution, txs: seq<Tx>)
    ensures var o := MatchTxs(resolve, txs);
            |o.txs| == |txs| && o.matched + o.unmatched == |txs|
            && o.matched == |Matched(o.txs)| && o.unmatched == |Missing(o.txs)|
    decreases |txs|
  {
    if txs != [] {
      var o := MatchTxs(resolve, txs[..|txs| - 1]);
      MatchTxsCounts(resolve, txs[..|txs| - 1]);
      var tx' := MatchOne(resolve, txs[|txs| - 1]);
      SplitKeepsOrder(o.txs, [tx']);
      assert [tx'][1..] == [];
    }
  }

  /** Each transaction is updated on its own: the i-th of the result is the i-th's step. */
  lemma {:induction false} MatchTxsPointwise(resolve: Tx -> Resolution, txs: seq<Tx>)
    ensures var o := MatchTxs(resolve, txs);
            |o.txs| == |txs|
            && forall i :: 0 <= i < |txs| ==> o.txs[i] == MatchOne(resolve, txs[i])
    decreases |txs|
  {
    if txs != [] {
      var init := txs[..|txs| - 1];
      MatchTxsPointwise(resolve, init);
      var o1 := MatchTxs(resolve, init);
      var o := MatchTxs(resolve, txs);
      assert o.txs == o1.txs + [MatchOne(resolve, txs[|txs| - 1])];
      forall i | 0 <= i < |txs| ensures o.txs[i] == MatchOne(resolve, txs[i]) {
        if i < |init| {
          assert o.txs[i] == o1.txs[i] && init[i] == txs[i];
        }
      }
    }
  }

  /** A match the search records names a document that the search returned and that does not
      carry the statement tag. */
  lemma MatchIsNotAStatement(index: SearchIndex, statementTag: int, tx: Tx)
    requires !IsMatched(tx) && IsMatched(MatchOne(SearchFor(index, statementTag), tx))
    ensures var r := Resolve(index, tx, statementTag);
            r.doc.Some? && MatchOne(SearchFor(index, statementTag), tx) == RecordMatch(tx, r.doc.value)
            && statementTag !in r.doc.value.tags
            && exists j :: 0 <= j < |r.calls| && r.doc.value in FirstPage(Ranked(index, r.calls[j]))
  {
    NeverStatement(index, tx, statementTag);
  }

  /** A statement whose transactions are all matched sends no request and changes nothing. */
  lemma {:induction false} FullyMatchedIsFixed(resolve: Tx -> Resolution, txs: seq<Tx>)
    requires forall i :: 0 <= i < |txs| ==> IsMatched(txs[i])
    ensures MatchTxs(resolve, txs) == Outcome(txs, |txs|, 0, [])
    decreases |txs|
  {
    if txs != [] {
      FullyMatchedIsFixed(resolve, txs[..|txs| - 1]);
      assert txs[..|txs| - 1] + [txs[|txs| - 1]] == txs;
    }
  }

  /** Matching twice against the same index gives what matching once gave: the second pass
      finds nothing the first did not. */
  lemma {:induction false} MatchTxsIdempotent(resolve: Tx -> Resolution, txs: seq<Tx>)
    ensures var o := MatchTxs(resolve, txs);
            var o2 := MatchTxs(resolve, o.txs);
            o2.txs == o.txs && o2.matched == o.matched && o2.unmatched == o.unmatched
    decreases |txs|
  {
    if txs != [] {
      var init := txs[..|txs| - 1];
      var tx := txs[|txs| - 1];
      var o := MatchTxs(resolve, txs);
      var o1 := MatchTxs(resolve, init);
      MatchTxsIdempotent(resolve, init);
      MatchTxsCounts(resolve, init);
      assert o.txs[..|o.txs| - 1] == o1.txs;
      var tx' := MatchOne(resolve, tx);
      assert MatchOne(resolve, tx') == tx';
    }
  }

  // ---- the run ----

  /** What a run has done so far: the cache, the counters, the requests sent to the search and
      to extraction, and the notes written (statement and the transactions it shows). */
  datatype RunState = RunState(
    cache: Cache,
    matched: nat,
    unmatched: nat,
    calls: seq<Query>,
    extracted: seq<DocId>,
    writes: seq<(DocId, string)>)

  function Start(cache: Cache): RunState {
    RunState(cache, 0, 0, [], [], [])
  }

  /** The note a statement's processing writes, if notes are enabled. */
  function NoteWrite(writeNotes: bool, id: DocId, txs: seq<Tx>): seq<(DocId, string)> {
    if writeNotes then [(id, NoteText(txs))] else []
  }

  /** Matching a statement's transactions and recording the result under its key. */
  function Process(resolve: Tx -> Resolution, writeNotes: bool, s: RunState, id: DocId,
                   txs: seq<Tx>, extracted: seq<DocId>): RunState
  {
    var o := MatchTxs(resolve, txs);
    RunState(s.cache[Key(id) := o.txs], s.matched + o.matched, s.unmatched + o.unmatched,
             s.calls + o.calls, extracted,
             s.writes + NoteWrite(writeNotes, id, o.txs))
  }

  /** One iteration of the statement loop: cached transactions are reused; otherwise they are
      extracted, and a statement whose extraction fails is skipped. */
  function Step(resolve: Tx -> Resolution, outcomes: map<DocId, seq<Tx>>, writeNotes: bool,
                s: RunState, id: DocId): RunState
  {
    if Key(id) in s.cache then Process(resolve, writeNotes, s, id, s.cache[Key(id)], s.extracted)
    else if id in outcomes then Process(resolve, writeNotes, s, id, outcomes[id], s.extracted + [id])
    else s.(extracted := s.extracted + [id])
  }

  /** The statement loop, in order. */
  function Run(resolve: Tx -> Resolution, outcomes: map<DocId, seq<Tx>>, writeNotes: bool,
               s: RunState, statements: seq<DocId>): RunState
    decreases |statements|
  {
    if statements == [] then s
    else Step(resolve, outcomes, writeNotes,
              Run(resolve, outcomes, writeNotes, s, statements[..|statements| - 1]),
              statements[|statements| - 1])
  }

  /** The notes after the given writes, each applied as `write_audit_note` applies it. */
  function ApplyWrites(notes: map<DocId, seq<Note>>, nextId: NoteId, writes: seq<(DocId, string)>): map<DocId, seq<Note>>
    decreases |writes|
  {
    if writes == [] then notes
    else
      var before := ApplyWrites(notes, nextId, writes[..|writes| - 1]);
      var (doc, text) := writes[|writes| - 1];
      before[doc := Upsert(if doc in before then before[doc] else [], nextId + |writes| - 1, text)]
  }

  /** `write_audit_note` when notes are enabled, on the store as the earlier writes left it. */
  method MaybeWriteNote(store: NoteStore, writeNotes: bool, doc: DocId, txs: seq<Tx>,
                        ghost writes: seq<(DocId, string)>, ghost notes0: map<DocId, seq<Note>>, ghost next0: NoteId)
    requires store.Valid()
    requires store.notes == ApplyWrites(notes0, next0, writes) && store.nextId == next0 + |writes|
    modifies store
    ensures store.Valid()
    ensures var all := writes + NoteWrite(writeNotes, doc, txs);
            store.notes == ApplyWrites(notes0, next0, all) && store.nextId == next0 + |all|
  {
    ghost var all := writes + NoteWrite(writeNotes, doc, txs);
    if writeNotes {
      store.WriteAuditNote(doc, txs);
      assert all[..|all| - 1] == writes;
    } else {
      assert all == writes;
    }
  }

  /**
   * Matching a statement's transactions, recording them in the cache, adding to the counters,
   * and rewriting the note when enabled. The logs of the search and of the note store are
   * their contents before the run (`calls0`, `notes0`, `next0`) followed by what the run has
   * done so far (`s`).
   */
  method ProcessStatement(svc: SearchService, store: NoteStore, statementTag: int,
                          ghost resolve: Tx -> Resolution, writeNotes: bool, id: DocId, txs: seq<Tx>,
                          ghost s: RunState, ghost extracted: seq<DocId>,
                          cache: Cache, totalMatched: nat, totalUnmatched: nat,
                          ghost calls0: seq<Query>, ghost notes0: map<DocId, seq<Note>>, ghost next0: NoteId)
    returns (cache': Cache, totalMatched': nat, totalUnmatched': nat, ghost s': RunState)
    requires SearchesIndex(resolve, svc.index, statementTag)
    requires store.Valid()
    requires cache == s.cache && totalMatched == s.matched && totalUnmatched == s.unmatched
    requires svc.calls == calls0 + s.calls
    requires store.notes == ApplyWrites(notes0, next0, s.writes) && store.nextId == next0 + |s.writes|
    modifies svc, store
    ensures s' == Process(resolve, writeNotes, s, id, txs, extracted)
    ensures cache' == s'.cache && totalMatched' == s'.matched && totalUnmatched' == s'.unmatched
    ensures svc.calls == calls0 + s'.calls
    ensures store.notes == ApplyWrites(notes0, next0, s'.writes) && store.nextId == next0 + |s'.writes|
    ensures store.Valid()
  {
    var updated, m, u := MatchStatement(svc, statementTag, resolve, txs);
    cache' := cache[Key(id) := updated];
    totalMatched' := totalMatched + m;
    totalUnmatched' := totalUnmatched + u;
    MaybeWriteNote(store, writeNotes, id, updated, s.writes, notes0, next0);
    s' := Process(resolve, writeNotes, s, id, txs, extracted);
  }

  /**
   * One iteration of the statement loop of `main`: the transactions come from the cache, or
   * from extraction, and a statement whose extraction fails is skipped.
   */
  method AuditStatement(svc: SearchService, extractor: Extractor, store: NoteStore, statementTag: int,
                        ghost resolve: Tx -> Resolution, writeNotes: bool, id: DocId,
                        ghost s: RunState, cache: Cache, totalMatched: nat, totalUnmatched: nat,
                        ghost calls0: seq<Query>, ghost requested0: seq<DocId>,
                        ghost notes0: map<DocId, seq<Note>>, ghost next0: NoteId)
    returns (cache': Cache, totalMatched': nat, totalUnmatched': nat, ghost s': RunState)
    requires SearchesIndex(resolve, svc.index, statementTag)
    requires store.Valid()
    requires cache == s.cache && totalMatched == s.matched && totalUnmatched == s.unmatched
    requires svc.calls == calls0 + s.calls && extractor.requested == requested0 + s.extracted
    requires store.notes == ApplyWrites(notes0, next0, s.writes) && store.nextId == next0 + |s.writes|
    modifies svc, extractor, store
    ensures s' == Step(resolve, extractor.outcomes, writeNotes, s, id)
    ensures cache' == s'.cache && totalMatched' == s'.matched && totalUnmatched' == s'.unmatched
    ensures svc.calls == calls0 + s'.calls && extractor.requested == requested0 + s'.extracted
    ensures store.notes == ApplyWrites(notes0, next0, s'.writes) && store.nextId == next0 + |s'.writes|
    ensures store.Valid()
  {
    var key := Key(id);
    if key in cache {
      cache', totalMatched', totalUnmatched', s' :=
        ProcessStatement(svc, store, statementTag, resolve, writeNotes, id, cache[key], s, s.extracted,
                         cache, totalMatched, totalUnmatched, calls0, notes0, next0);
    } else {
      var got := extractor.Extract(id);
      if got.None? {
        cache', totalMatched', totalUnmatched' := cache, totalMatched, totalUnmatched;
        s' := s.(extracted := s.extracted + [id]);
      } else {
        cache', totalMatched', totalUnmatched', s' :=
          ProcessStatement(svc, store, statementTag, resolve, writeNotes, id, got.value, s, s.extracted + [id],
                           cache, totalMatched, totalUnmatched, calls0, notes0, next0);
      }
    }
  }

  /**
   * The body of `main` after the statements are fetched: the loop over the statements with the
   * cache as loaded; returns the cache to save and the two counters. `resolve` is the search
   * `match_transaction` runs (`SearchFor` meets the requirement).
   */
  method RunAudit(svc: SearchService, extractor: Extractor, store: NoteStore, statementTag: int,
                  ghost resolve: Tx -> Resolution, writeNotes: bool, statements: seq<DocId>, loaded: Cache)
    returns (cache: Cache, totalMatched: nat, totalUnmatched: nat)
    requires SearchesIndex(resolve, svc.index, statementTag)
    requires store.Valid()
    modifies svc, extractor, store
    ensures var r := Run(resolve, extractor.outcomes, writeNotes, Start(loaded), statements);
            cache == r.cache && totalMatched == r.matched && totalUnmatched == r.unmatched
            && svc.calls == old(svc.calls) + r.calls
            && extractor.requested == old(extractor.requested) + r.extracted
            && store.notes == ApplyWrites(old(store.notes), old(store.nextId), r.writes)
            && store.nextId == old(store.nextId) + |r.writes|
    ensures store.Valid()
  {
    cache := loaded;
    totalMatched, totalUnmatched := 0, 0;
    ghost var s := Start(loaded);
    ghost var calls0, requested0 := svc.calls, extractor.requested;
    ghost var notes0, next0 := store.notes, store.nextId;
    for k := 0 to |statements|
      invariant s == Run(resolve, extractor.outcomes, writeNotes, Start(loaded), statements[..k])
      invariant cache == s.cache && totalMatched == s.matched && totalUnmatched == s.unmatched
      invariant svc.calls == calls0 + s.calls && extractor.requested == requested0 + s.extracted
      invariant store.Valid()
      invariant store.notes == ApplyWrites(notes0, next0, s.writes) && store.nextId == next0 + |s.writes|
    {
      assert statements[..k + 1][..k] == statements[..k];
      cache, totalMatched, totalUnmatched, s :=
        AuditStatement(svc, extractor, store, statementTag, resolve, writeNotes, statements[k],
                       s, cache, totalMatched, totalUnmatched, calls0, requested0, notes0, next0);
    }
    assert statements[..|statements|] == statements;
  }

  // ---- properties of a run ----

  /** Keys are only ever added: a key is in the final cache iff it was loaded or belongs to a
      statement whose transactions were obtained. */
  lemma {:induction false} RunKeepsKeys(resolve: Tx -> Resolution, outcomes: map<DocId, seq<Tx>>,
                                        writeNotes: bool, s: RunState, statements: seq<DocId>)
    ensures var r := Run(resolve, outcomes, writeNotes, s, statements);
            s.cache.Keys <= r.cache.Keys
            && forall k :: k in r.cache && k !in s.cache ==>
                 exists i :: 0 <= i < |statements| && k == Key(statements[i]) && statements[i] in outcomes
    decreases |statements|
  {
    if statements != [] {
      var init := statements[..|statements| - 1];
      RunKeepsKeys(resolve, outcomes, writeNotes, s, init);
      var before := Run(resolve, outcomes, writeNotes, s, init);
      var r := Run(resolve, outcomes, writeNotes, s, statements);
      var id := statements[|statements| - 1];
      forall k | k in r.cache && k !in s.cache
        ensures exists i :: 0 <= i < |statements| && k == Key(statements[i]) && statements[i] in outcomes
      {
        if k in before.cache {
          var i :| 0 <= i < |init| && k == Key(init[i]) && init[i] in outcomes;
          assert statements[i] == init[i];
        } else {
          assert k == Key(id) && id in outcomes;
        }
      }
    }
  }

  /** A statement whose key is in the cache is never extracted: the extraction log holds only
      statements that were not cached when their turn came, so a statement cached at the start
      is never among them. */
  lemma {:induction false} CachedNeverExtracted(resolve: Tx -> Resolution, outcomes: map<DocId, seq<Tx>>,
                                                writeNotes: bool, s: RunState, statements: seq<DocId>)
    ensures var r := Run(resolve, outcomes, writeNotes, s, statements);
            |s.extracted| <= |r.extracted|
            && forall i :: |s.extracted| <= i < |r.extracted| ==>
                 Key(r.extracted[i]) !in s.cache && r.extracted[i] in statements
    decreases |statements|
  {
    if statements != [] {
      var init := statements[..|statements| - 1];
      CachedNeverExtracted(resolve, outcomes, writeNotes, s, init);
      RunKeepsKeys(resolve, outcomes, writeNotes, s, init);
      var before := Run(resolve, outcomes, writeNotes, s, init);
      var r := Run(resolve, outcomes, writeNotes, s, statements);
      forall i | |s.extracted| <= i < |r.extracted|
        ensures Key(r.extracted[i]) !in s.cache && r.extracted[i] in statements
      {
        if i < |before.extracted| {
          assert r.extracted[i] == before.extracted[i];
          assert r.extracted[i] in init;
        }
      }
    }
  }

  /** Transactions that hold the match invariant keep it through a run. */
  predicate CachePaired(cache: Cache) {
    forall k :: k in cache ==> forall i :: 0 <= i < |cache[k]| ==> FieldsPaired(cache[k][i])
  }

  lemma MatchTxsPaired(resolve: Tx -> Resolution, txs: seq<Tx>, updated: seq<Tx>)
    requires forall i :: 0 <= i < |txs| ==> FieldsPaired(txs[i])
    requires updated == MatchTxs(resolve, txs).txs
    ensures forall i :: 0 <= i < |updated| ==> FieldsPaired(updated[i])
  {
    MatchTxsPointwise(resolve, txs);
  }

  lemma {:induction false} RunKeepsPaired(resolve: Tx -> Resolution, outcomes: map<DocId, seq<Tx>>,
                                          writeNotes: bool, s: RunState, statements: seq<DocId>)
    requires CachePaired(s.cache)
    requires forall d :: d in outcomes ==> forall i :: 0 <= i < |outcomes[d]| ==> FieldsPaired(outcomes[d][i])
    ensures CachePaired(Run(resolve, outcomes, writeNotes, s, statements).cache)
    decreases |statements|
  {
    if statements != [] {
      var init := statements[..|statements| - 1];
      RunKeepsPaired(resolve, outcomes, writeNotes, s, init);
      var before := Run(resolve, outcomes, writeNotes, s, init);
      var id := statements[|statements| - 1];
      if Key(id) in before.cache {
        var txs := before.cache[Key(id)];
        assert forall i :: 0 <= i < |txs| ==> FieldsPaired(txs[i]);
        var updated := MatchTxs(resolve, txs).txs;
        MatchTxsPaired(resolve, txs, updated);
        PairedUpdate(before.cache, Key(id), updated);
      } else if id in outcomes {
        var txs := outcomes[id];
        var updated := MatchTxs(resolve, txs).txs;
        MatchTxsPaired(resolve, txs, updated);
        PairedUpdate(before.cache, Key(id), updated);
      }
    }
  }

  lemma PairedUpdate(c: Cache, k: string, v: seq<Tx>)
    requires CachePaired(c) && forall i :: 0 <= i < |v| ==> FieldsPaired(v[i])
    ensures CachePaired(c[k := v])
  {
  }

  /** Every cached transaction is matched. */
  predicate FullyMatched(cache: Cache) {
    forall k :: k in cache ==> forall i :: 0 <= i < |cache[k]| ==> IsMatched(cache[k][i])
  }

  /**
   * Re-running a month whose statements are all cached and fully matched sends no search
   * request, extracts nothing, leaves the cache and the unmatched counter as they were, and
   * writes each statement's note again when notes are enabled.
   */
  lemma {:induction false} RerunIsQuiet(resolve: Tx -> Resolution, outcomes: map<DocId, seq<Tx>>,
                                        writeNotes: bool, s: RunState, statements: seq<DocId>)
    requires FullyMatched(s.cache)
    requires forall i :: 0 <= i < |statements| ==> Key(statements[i]) in s.cache
    ensures var r := Run(resolve, outcomes, writeNotes, s, statements);
            r.calls == s.calls && r.extracted == s.extracted && r.cache == s.cache
            && r.unmatched == s.unmatched
            && |r.writes| == |s.writes| + (if writeNotes then |statements| else 0)
    decreases |statements|
  {
    if statements != [] {
      var init := statements[..|statements| - 1];
      RerunIsQuiet(resolve, outcomes, writeNotes, s, init);
      var before := Run(resolve, outcomes, writeNotes, s, init);
      var id := statements[|statements| - 1];
      var txs := before.cache[Key(id)];
      FullyMatchedIsFixed(resolve, txs);
      assert before.cache[Key(id) := txs] == before.cache;
    }
  }

  /** With note writing off, a run writes no note. */
  lemma {:induction false} NoNotesWhenDisabled(resolve: Tx -> Resolution, outcomes: map<DocId, seq<Tx>>,
                                               s: RunState, statements: seq<DocId>)
    ensures Run(resolve, outcomes, false, s, statements).writes == s.writes
    decreases |statements|
  {
    if statements != [] {
      NoNotesWhenDisabled(resolve, outcomes, s, statements[..|statements| - 1]);
    }
  }
}
