# Bank-statement audit: the matching engine

A Dafny model of the transaction-matching engine of `audit.py`, a tool that cross-references the
transactions of monthly bank statements with the documents of a Paperless-ngx archive.

For each statement of a month, the tool does the following:

- It takes the statement's transactions from a per-month cache, keyed by the statement id.
  When the statement is not cached, it gets them from an extraction pipeline.
- It searches the archive once for each transaction that has no match yet. The searches come in
  three tiers:
  - first, every reference token from the transaction's `ref` field and description;
  - then "counterparty amount";
  - then the amount alone.

  Each search has a date window. The first result that is not itself a bank statement wins.
- When note writing is enabled, it rewrites the statement's audit note: a `[AUDIT] k/n` header,
  then a `[MISSING]` section and a `[MATCHED]` section.

The model has one module per concern:

| File | Contents |
|---|---|
| `wrappers.dfy` | `Option` |
| `text.dfy` | decimal and two-decimal rendering, prefixes, `join` |
| `dates.dfy` | day ordinals, strict ISO date parsing, the month window of the statement query |
| `domain.dfy` | transactions, search hits, search requests |
| `refs.dfy` | the three reference patterns, written out as scanners with Python `re` semantics; `extract_refs` as a loop |
| `matching.dfy` | `find_non_statement`; the query plan; the tiered resolver as a specification function and as a method against a search service that logs its requests |
| `notes.dfy` | `format_tx_block`, the note text, and a note store with the delete-then-create protocol |
| `audit.dfy` | the per-statement matching loop and the statement loop of `main`, with the cache, the counters and the request logs |

### Representation choices

- **Amounts** are integer cents, so `f"{x:.2f}"` is exact.
- **Dates** are day ordinals, numbered as in `date.toordinal`.
- **Document ids and note ids** are positive integers, so the source's truthiness tests on ids are
  presence tests.
- **The archive's search** is an oracle: a map from a request to its ranked documents. The
  service returns the first page of 10 results and logs every request, so "stop after the first
  hit" can be stated and proved.
- **The extraction pipeline** is an oracle: a map from statement id to its transactions. An
  absent id stands for empty content or a failed extraction.
- **The run loop** works on a `resolve` parameter instead of the search itself. The loop requires
  that `resolve` agrees with `match_transaction` against the service's index, and
  `Audit.SearchForSearches` proves that `Audit.SearchFor` meets that requirement.

## Model

| member | source | states |
|---|---|---|
| Text.NatToStringRoundTrip | audit.py:377 | the decimal rendering of an id reads back as the id |
| Text.NatToStringInjective | audit.py:377 | distinct ids have distinct decimal renderings |
| Text.FormatCentsRoundTrip | audit.py:247 | two-decimal rendering of cents loses nothing: parsing it back gives the amount |
| Text.JoinStartsWithFirst | audit.py:311 | a `sep.join` of non-empty parts starts with the first part |
| Text.JoinEndsWithLast | audit.py:311 | a `sep.join` of non-empty parts ends with the last part |
| Dates.IsoRoundTrip | audit.py:254-255 | the ISO text of every valid date parses back to that date's ordinal |
| Dates.ParseIsoDate | audit.py:253-258 | `date.fromisoformat`: the day ordinal of a valid ten-character `YYYY-MM-DD`, and `None`, the `ValueError` path, for anything else; `Dates.IsoRoundTrip` and `Dates.ParseIsoRoundTrip` prove it inverse to `isoformat` |
| Dates.ParseIsoRoundTrip | audit.py:254 | text that parses is the ISO text of the date it names, so parsing then formatting gives the input back |
| Dates.MonthWindow | audit.py:46-50 | `first_day` and `next_month`: the first of the month and the first of the next month, December rolling over into January; `None` where `date(...)` raises; its properties are `Dates.MonthWindowLength` and `Dates.MonthWindowSelectsMonth` |
| Dates.MonthWindowLength | audit.py:46-50 | both bounds are valid dates; December rolls over to January of the next year; the upper bound is the first of the next month, one month length after the lower |
| Dates.MonthWindowSelectsMonth | audit.py:46-56 | a date lies in `[first_day, next_month)` iff it has the requested year and month |
| Dates.DateInItsMonth | audit.py:46-50 | a valid date lies between the start of its month and the start of the next month |
| Domain.RecordMatch | audit.py:428-429 | recording a match sets the document id and the title together, a missing title as "", and changes no other field |
| Refs.RunEnd | audit.py:223-225 | a greedy run of a character class: every character in it is of the class, and the first character after it is not |
| Refs.LastDigit | audit.py:223 | the last digit in a range, or none when the range has no digit: where `[\d-]+\d` backtracks to |
| Refs.MatchCode | audit.py:223 | pattern (a) anchored at a position: two or more capitals, a hyphen and a digit, then the greedy `[\d-]+` backtracked to its last digit; the whole match is emitted |
| Refs.MatchNumber | audit.py:224 | pattern (b) anchored at a position: `Nr` or `nr`, an optional point, white space, and the next word as group 1; when only white space follows `Nr.`, the engine backtracks and the point is group 1 |
| Refs.MatchInvoice | audit.py:225 | pattern (c) anchored at a position: a word starting `Rēķin` or `rēķin`, white space, an optional second word, and the third word as group 1; with no third word, the second word's last character; with no second word, no match |
| Refs.MatchAt | audit.py:222-228 | every match of the three patterns is non-empty and holds the span it emits |
| Refs.FindAll | audit.py:228-229 | `re.finditer`: the leftmost match at each position, scanning resumed at the end of each match, the emitted texts in order; its properties are `Refs.FindAllSound` and `Refs.FindAllReaches` |
| Refs.RefTokens | audit.py:213-231 | the token list: the `ref` field when non-empty, then the hits of (a), (b) and (c) on the description, pattern by pattern; its properties are `Refs.RefTokensOrder`, `Refs.RefFirst` and `Refs.RefTokensFromDescription` |
| Refs.ExtractRefs | audit.py:213-231 | the loop returns exactly the token list: the `ref` field, then every hit, pattern by pattern |
| Refs.AppendHits | audit.py:228-229 | the `re.finditer` loop appends exactly the pattern's hits, in scanning order |
| Refs.RefTokensOrder | audit.py:215-231 | the tokens are the non-empty `ref`, then all Code hits, then all Number hits, then all Invoice hits, without deduplication |
| Refs.RefFirst | audit.py:216-218 | a non-empty `ref` is the first token, verbatim |
| Refs.RefTokensFromDescription | audit.py:220-229 | every other token is a non-empty, space-free piece of the description |
| Refs.MatchSound | audit.py:222-229 | the text a match emits is non-empty and space-free, and a Code hit has the shape of pattern (a) |
| Refs.FindAllSound | audit.py:228-229 | every hit of a scan has the shape of its pattern and occurs in the text |
| Refs.FindAllReaches | audit.py:228 | a scan in which no match runs past `q` reaches `q`: the later hits are a suffix of the earlier ones |
| Refs.CodeFound | audit.py:223-228 | a code standing between separators is always among the Code hits |
| Refs.NoHyphenNoCode | audit.py:223 | a text without a hyphen has no Code hit |
| Refs.NoStemNoInvoice | audit.py:225 | a text without "ē" has no Invoice hit |
| Refs.InvoiceCodeExample | audit.py:221-223 | "Invoice DH-202512-10218 payment" yields the code DH-202512-10218 |
| Refs.InvoiceNumberExample | audit.py:224-229 | "rēķins Nr. 42" yields "42" twice, once from each of (b) and (c) |
| Refs.NumberOnlyExample | audit.py:224-229 | "Nr. 55231" with no `ref` yields the single token "55231" |
| Matching.FirstPage | audit.py:95 | a search returns at most 10 results, the leading ones of the ranking |
| Matching.FindNonStatement | audit.py:234-240 | the first result without the statement tag, or `None`; `Matching.FindNonStatementSpec` states what that means |
| Matching.FindNonStatementSpec | audit.py:234-240 | nothing is found iff every result is tagged as a statement; what is found is untagged and every result before it is tagged |
| Matching.Lookback | audit.py:250-251 | the lookback is 365 days exactly for credits, 30 otherwise |
| Matching.WideWindow | audit.py:249-258 | the bounds of the reference and counterparty tiers: from the date minus the lookback to the date plus 14 days, and no bounds when the date does not parse; `Matching.WindowsAroundDate` and `Matching.BadDateNoBounds` state them |
| Matching.NarrowWindow | audit.py:273-279 | the bounds of the amount tier: five days either side of the date, and no bounds when the date does not parse |
| Matching.AbsAmountText | audit.py:247 | `f"{abs(amount):.2f}"` on the amount in cents; `Text.FormatCentsRoundTrip` shows it loses nothing |
| Matching.RefQueries | audit.py:261-262 | one request per token, in token order, with the wide window |
| Matching.Plan | audit.py:245-280 | the requests of the three tiers in the order they are tried; `Matching.PlanShape` and `Matching.PlanSplit` describe it |
| Matching.FirstHit | audit.py:260-285 | tries the requests in order and stops at the first one with a non-statement result: that document, and the requests sent; `Matching.FirstHitCharacterized` states what it returns |
| Matching.Resolve | audit.py:243-285 | `match_transaction` as a function: `FirstHit` over the plan; `Matching.MatchTransaction` is the method proved equal to it |
| Matching.SearchService.Search | audit.py:93-101 | a search logs its request and returns the first page of its ranking |
| Matching.TryQuery | audit.py:262-263 | one request logged, and its first non-statement result returned |
| Matching.TryInOrder | audit.py:261-265 | the loop over the tokens returns the first hit and logs exactly the requests up to it |
| Matching.MatchTransaction | audit.py:243-285 | the three tiers with early returns send exactly the requests of the resolution and return its document |
| Matching.ReferenceTier | audit.py:261-265 | a hit in the reference tier decides the resolution |
| Matching.CounterpartyTier | audit.py:268-271 | with no reference hit, a counterparty hit decides after the reference requests and one more |
| Matching.AmountTier | audit.py:274-285 | with no earlier hit, the amount request decides, after all three tiers' requests |
| Matching.PlanSplit | audit.py:260-285 | the resolution, tier by tier |
| Matching.FirstHitAppend | audit.py:260-285 | trying two request lists one after the other: the first list decides if it hits; otherwise all its requests are sent before the second list's |
| Matching.FirstHitAfterMisses | audit.py:261-265 | after misses on the first `i` requests, a hit on request `i` decides, with `i + 1` requests sent |
| Matching.FirstHitAllMiss | audit.py:261-285 | when every request misses, all are sent and nothing is found |
| Matching.FirstHitMissSendsAll | audit.py:285 | nothing found means every request was sent |
| Matching.FirstHitCharacterized | audit.py:261-285 | the requests sent are a prefix of the plan; each but the last found only statements; None iff the whole plan missed; a document found is the last request's first non-statement |
| Matching.NeverStatement | audit.py:234-285 | a resolved document never carries the statement tag, and it was on the page of a request that was sent |
| Matching.PlanShape | audit.py:245-280 | the plan is the tokens, then "counterparty amount", then the amount; the first two tiers share the wide window, the last uses the narrow window |
| Matching.BadDateNoBounds | audit.py:253-279 | an unparseable date sends every request without bounds |
| Matching.WindowsAroundDate | audit.py:250-277 | with a parseable date the windows are `[d-365 or d-30, d+14]` and `[d-5, d+5]`; every window holds the day; the narrow window lies inside the wide one |
| Matching.ReferenceTierWins | audit.py:216-265 | a `ref` whose request finds a non-statement is resolved by that single request |
| Matching.CentsExample | audit.py:247 | the magnitude of -120.50 renders as "120.50" |
| Matching.AcmeExample | audit.py:243-285 | the Acme Ltd debit: the number request misses, "Acme Ltd 120.50" finds invoice 42, exactly these two requests are sent, and the match records id 42 with its title |
| Notes.TxLines | audit.py:304-310 | the lines of a block: the symbol, date and amount line, the counterparty, the description when non-empty, the document line when matched |
| Notes.FormatTxBlock | audit.py:302-311 | `format_tx_block`: the block's lines joined by newlines; `Notes.TxBlockShape` states its shape |
| Notes.Missing | audit.py:316 | the unmatched transactions, in order; with `Notes.Matched`, `Notes.Partition` and `Notes.SplitKeepsOrder` state the split |
| Notes.Matched | audit.py:317 | the matched transactions, in order |
| Notes.TxBlockShape | audit.py:302-311 | a block's lines: title line, counterparty, the description iff it is non-empty, the document line iff matched; the block starts with the title line and ends with its last line |
| Notes.Partition | audit.py:316-317 | the missing and matched lists split the transactions: every one exactly once, unmatched ones in the first, matched ones in the second |
| Notes.SplitKeepsOrder | audit.py:316-317 | both lists keep the input order |
| Notes.Blocks | audit.py:324-330 | one block per transaction, the i-th being the block of the i-th transaction |
| Notes.AppendBlocks | audit.py:324-330 | the append loop adds one block per transaction, in order |
| Notes.AppendSection | audit.py:322-330 | a section is appended only when it has transactions: its header, then its blocks |
| Notes.NoteParts | audit.py:320-330 | the note's parts: the header, the missing section when some transaction is unmatched, the matched section when some is matched; `Notes.NotePartCount`, `Notes.MissingSection` and `Notes.MatchedSection` state them |
| Notes.NoteText | audit.py:332 | the parts joined by blank lines; `Notes.NoteHeader` and `Notes.RenderNote` are about it |
| Notes.RenderNote | audit.py:316-332 | the rendering appends exactly the note's parts and joins them with blank lines |
| Notes.BlocksStartWithSymbol | audit.py:325-330 | every block starts with its section's symbol |
| Notes.NoteHeader | audit.py:320-332 | the note starts with `[AUDIT] k/n`, with k matched out of n |
| Notes.NotePartCount | audit.py:320-332 | the note has one part for the header, one per section present and one per transaction |
| Notes.MissingSection | audit.py:322-325 | `[MISSING][(n-k)/n]` is present iff some transaction is unmatched |
| Notes.MatchedSection | audit.py:327-330 | `[MATCHED][k/n]` is present iff some transaction is matched |
| Notes.ExistingAuditNote | audit.py:293-299 | `get_existing_audit_note`: the first note whose text starts with `[AUDIT]`, or `None` |
| Notes.ExistingAuditNoteSpec | audit.py:293-299 | the note found is an audit note on the document and every note before it is not one; none is found iff the document has no audit note |
| Notes.RemoveIdSpec | audit.py:336-340 | deleting by id keeps exactly the notes with other ids |
| Notes.RemoveExisting | audit.py:335-340 | deleting the first audit note removes one audit note and keeps all other notes in order |
| Notes.RemoveKeepsUnique | audit.py:336-340 | deleting keeps note ids unique |
| Notes.Upsert | audit.py:334-347 | the delete-then-create protocol: the first audit note, if any, is removed by id and the new note appended; `Notes.UpsertReplaces` states the result |
| Notes.UpsertReplaces | audit.py:334-347 | after delete-then-create, the other notes are unchanged and in order; the old audit note is replaced; the new note is last |
| Notes.NoteStore.WriteAuditNote | audit.py:314-347 | the store's notes become the upsert of the rendered note on that document; ids stay unique |
| Audit.KeyInjective | audit.py:377-382 | the cache key `str(id)` identifies the statement |
| Audit.Extractor.Extract | audit.py:385-414 | extraction yields the statement's transactions or fails, and every attempt is logged |
| Audit.SearchForSearches | audit.py:426 | the resolver the loop is given is `match_transaction` against the index |
| Audit.MatchTxs | audit.py:417-434 | the per-statement loop as a function: each transaction through `Audit.MatchOne`, in order, with the two counters and the requests sent; `Audit.MatchTxsCounts`, `Audit.MatchTxsPointwise` and `Audit.MatchTxsIdempotent` are about it |
| Audit.MatchOne | audit.py:417-434 | a matched transaction is unchanged; an unmatched one is matched iff the search finds a document; only the match fields change; the pairing of id and title is kept |
| Audit.MatchStep | audit.py:417-434 | one iteration updates the transaction as `MatchOne` says and sends the search requests only for an unmatched transaction |
| Audit.MatchStatement | audit.py:416-434 | the loop updates each transaction where it stands, counts it, and logs exactly the search requests of the unmatched ones |
| Audit.MatchTxsCounts | audit.py:419-434 | every transaction is counted once, matched or unmatched, and the counts are the sizes of the two note sections |
| Audit.MatchTxsPointwise | audit.py:417-434 | the i-th transaction after the loop is the i-th one's step |
| Audit.MatchIsNotAStatement | audit.py:426-429 | a newly recorded match is a search result that is not a bank statement |
| Audit.FullyMatchedIsFixed | audit.py:419-423 | a fully matched statement sends no request and is left unchanged |
| Audit.MatchTxsIdempotent | audit.py:417-434 | matching an already-processed statement again changes nothing and counts the same |
| Audit.MaybeWriteNote | audit.py:436-438 | a note is written iff notes are enabled |
| Audit.Process | audit.py:414-438 | one statement's transactions matched, stored under its key, added to the counters and the request log, and its note queued when notes are enabled |
| Audit.Step | audit.py:381-438 | one iteration of the statement loop: cached transactions reused; otherwise extracted, and a statement whose extraction fails is logged and skipped |
| Audit.Run | audit.py:376-438 | the statement loop as a function, statement by statement in order; `Audit.RunAudit` is the method proved equal to it |
| Audit.ProcessStatement | audit.py:414-438 | the statement's transactions are matched, stored under its key, added to the counters, and its note rewritten when enabled |
| Audit.AuditStatement | audit.py:376-438 | a cache hit skips extraction; a miss extracts, and a failed extraction skips the statement |
| Audit.RunAudit | audit.py:372-438 | the statement loop yields the cache, the counters, the search and extraction logs and the notes of the run specification |
| Audit.RunKeepsKeys | audit.py:382-414 | cache keys are only added, each new one by a statement whose extraction succeeded |
| Audit.CachedNeverExtracted | audit.py:382-390 | a statement already in the cache is never extracted |
| Audit.MatchTxsPaired | audit.py:428-429 | the id/title pairing survives the matching loop |
| Audit.RunKeepsPaired | audit.py:428-429 | the id/title pairing of every cached transaction survives a run |
| Audit.RerunIsQuiet | audit.py:382-438 | re-running a fully matched, fully cached month sends no request, extracts nothing, leaves the cache and the unmatched count unchanged, and rewrites one note per statement when enabled |
| Audit.NoNotesWhenDisabled | audit.py:437-438 | with note writing off, no note is written |

## Left out

- HTTP: `paperless_get`, the pagination in `get_statements`, `download_original`, `get_document_content` and the note requests. The search is an index oracle with a request log; the notes live in an in-memory store. The oracle always answers, so a failed search is not modelled: in the program, an HTTP error in `search_documents` (audit.py:93-101) raises out of `main`, the run ends before `save_cache` (audit.py:444), and the matches of that run are lost.
- Extraction: the spreadsheet parsing with xlrd/openpyxl/tempfile, the OCR fallback and the language-model call (audit.py:106-190). All of them are the `Extractor.outcomes` oracle. An absent statement covers empty content and a raised extraction alike.
- JSON persistence (`load_cache`/`save_cache`) and environment configuration. The cache is a map passed in and returned; the statement tag and `WRITE_NOTES` are parameters.
- The early return when a month has no statements (audit.py:365-367): the statement loop on an empty list does nothing.
- The parsing of `sys.argv` in `main`.
- All console output. This includes the totals and the coverage percentage (audit.py:447-453), which uses float division and rounding; with no transactions at all, no coverage line is printed.
- Floating-point amounts: amounts are integer cents.
- Search results beyond the first page of 10.
- `\d` is modelled as the ASCII digits only. Python's `\d` on `str` also matches other Unicode decimal digits.
- Dates: `date.fromisoformat` is the strict `YYYY-MM-DD` form of Python 3.7 to 3.10; the extra forms accepted since 3.11 are not modelled. The OverflowError of `d ± timedelta` at the ends of the year range is not modelled, because ordinals are unbounded integers.
- Note ids are assumed positive, and unique per document (`NoteStore.Valid`). The archive assigns them, and the model hands out increasing ones.
- Audit.RunAudit, Audit.ProcessStatement, Audit.AuditStatement, Audit.MatchStatement: these take the resolver as a ghost parameter that must agree with `match_transaction` on the service's index. `Audit.SearchFor` is the one the source uses.
- Aliasing between the cached lists and the transactions being updated is not modelled: the loop's updated list is written back under the statement's key, which is the state Python's in-place updates leave behind.
- A null title: `match.get("title", "")` gives `None` when the archive sends a null title (audit.py:429). The model's `Doc.title` is `None` only when the title key is absent, and the match records "" then.

## Behaviour of the code the model keeps

- With no transactions at all, the program prints no coverage line; it does not report 0% (audit.py:452-453).
- A debit's reference and counterparty searches look back 30 days and ahead 14 days (audit.py:251-256); the window is not symmetric. `Matching.WindowsAroundDate` states it.
