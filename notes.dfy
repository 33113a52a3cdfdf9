/**
 * The audit note written on a statement document: a header `[AUDIT] k/n`, then the unmatched
 * transactions, then the matched ones, each as a block of lines; and the note store the note is
 * written to, where the previous audit note is deleted and the new one appended.
 */
module Notes {
  import opened Wrappers
  import opened Text
  import opened Domain

  /** The marker an audit note starts with. */
  const AuditPrefix: string := "[AUDIT]"
  /** Leads the block of an unmatched transaction ("✗"). */
  const MissingSymbol: string := "\U{2717}"
  /** Leads the block of a matched transaction ("✓"). */
  const MatchedSymbol: string := "\U{2713}"
  /** Leads the line naming the matched document ("→"). */
  const Arrow: string := "\U{2192}"

  // ---- one transaction ----

  /** The first line of a block: symbol, date, and the signed amount with two decimals. */
  function TitleLine(tx: Tx, symbol: string): string {
    symbol + " " + tx.date + " / " + FormatCents(tx.amount)
  }

  /** The line naming the matched document; a missing title prints as "". */
  function MatchLine(tx: Tx): string
    requires IsMatched(tx)
  {
    Arrow + " #" + NatToString(tx.matchedDocId.value) + " " + tx.matchedTitle.GetOr("")
  }

  /** The lines of `format_tx_block`. */
  function TxLines(tx: Tx, symbol: string): seq<string> {
    [TitleLine(tx, symbol), tx.counterparty]
    + (if tx.description != "" then [tx.description] else [])
    + (if IsMatched(tx) then [MatchLine(tx)] else [])
  }

  /** `format_tx_block`: the lines joined by newlines. */
  function FormatTxBlock(tx: Tx, symbol: string): string {
    Join(TxLines(tx, symbol), "\n")
  }

  /**
   * A block opens with the title line and the counterparty follows it; the description line is
   * there iff the description is non-empty and the document line iff the transaction is matched;
   * the block ends with the document line when there is one, else with the description when
   * there is one, else with the counterparty.
   */
  lemma TxBlockShape(tx: Tx, symbol: string)
    ensures var lines := TxLines(tx, symbol);
            |lines| == 2 + (if tx.description != "" then 1 else 0) + (if IsMatched(tx) then 1 else 0)
            && lines[0] == TitleLine(tx, symbol) && lines[1] == tx.counterparty
            && (tx.description != "" ==> lines[2] == tx.description)
    ensures StartsWith(FormatTxBlock(tx, symbol), TitleLine(tx, symbol))
    ensures EndsWith(FormatTxBlock(tx, symbol),
                     if IsMatched(tx) then MatchLine(tx)
                     else if tx.description != "" then tx.description
                     else tx.counterparty)
  {
    var lines := TxLines(tx, symbol);
    JoinStartsWithFirst(lines, "\n");
    JoinEndsWithLast(lines, "\n");
  }

  // ---- the note ----

  /** The unmatched transactions, in input order. */
  function Missing(txs: seq<Tx>): seq<Tx> {
    if txs == [] then []
    else (if IsMatched(txs[0]) then [] else [txs[0]]) + Missing(txs[1..])
  }

  /** The matched transactions, in input order. */
  function Matched(txs: seq<Tx>): seq<Tx> {
    if txs == [] then []
    else (if IsMatched(txs[0]) then [txs[0]] else []) + Matched(txs[1..])
  }

  /** The two lists split the input: together they hold every transaction exactly once, the
      first only unmatched ones and the second only matched ones. */
  lemma Partition(txs: seq<Tx>)
    ensures |Missing(txs)| + |Matched(txs)| == |txs|
    ensures multiset(Missing(txs)) + multiset(Matched(txs)) == multiset(txs)
    ensures forall t :: t in Missing(txs) ==> !IsMatched(t)
    ensures forall t :: t in Matched(txs) ==> IsMatched(t)
  {
    PartitionSizes(txs);
    PartitionMultiset(txs);
    PartitionMembers(txs);
  }

  lemma {:induction false} PartitionSizes(txs: seq<Tx>)
    ensures |Missing(txs)| + |Matched(txs)| == |txs|
  {
    if txs != [] {
      PartitionSizes(txs[1..]);
    }
  }

  lemma {:induction false} PartitionMultiset(txs: seq<Tx>)
    ensures multiset(Missing(txs)) + multiset(Matched(txs)) == multiset(txs)
  {
    if txs != [] {
      PartitionMultiset(txs[1..]);
      assert txs == [txs[0]] + txs[1..];
    }
  }

  lemma {:induction false} PartitionMembers(txs: seq<Tx>)
    ensures forall t :: t in Missing(txs) ==> !IsMatched(t)
    ensures forall t :: t in Matched(txs) ==> IsMatched(t)
  {
    if txs != [] {
      PartitionMembers(txs[1..]);
    }
  }

  /** Both lists keep the input order: splitting the input splits each list the same way. */
  lemma SplitKeepsOrder(a: seq<Tx>, b: seq<Tx>)
    ensures Missing(a + b) == Missing(a) + Missing(b)
    ensures Matched(a + b) == Matched(a) + Matched(b)
  {
    MissingSplit(a, b);
    MatchedSplit(a, b);
  }

  lemma {:induction false} MissingSplit(a: seq<Tx>, b: seq<Tx>)
    ensures Missing(a + b) == Missing(a) + Missing(b)
    decreases |a|
  {
    if a == [] {
      assert a + b == b;
    } else {
      MissingSplit(a[1..], b);
      assert (a + b)[0] == a[0] && (a + b)[1..] == a[1..] + b;
      var h := if IsMatched(a[0]) then [] else [a[0]];
      assert Missing(a + b) == h + (Missing(a[1..]) + Missing(b));
      assert Missing(a) == h + Missing(a[1..]);
    }
  }

  lemma {:induction false} MatchedSplit(a: seq<Tx>, b: seq<Tx>)
    ensures Matched(a + b) == Matched(a) + Matched(b)
    decreases |a|
  {
    if a == [] {
      assert a + b == b;
    } else {
      MatchedSplit(a[1..], b);
      assert (a + b)[0] == a[0] && (a + b)[1..] == a[1..] + b;
      var h := if IsMatched(a[0]) then [a[0]] else [];
      assert Matched(a + b) == h + (Matched(a[1..]) + Matched(b));
      assert Matched(a) == h + Matched(a[1..]);
    }
  }

  /** The blocks of the given transactions, in order. */
  function Blocks(txs: seq<Tx>, symbol: string): (r: seq<string>)
    ensures |r| == |txs|
    ensures forall i :: 0 <= i < |txs| ==> r[i] == FormatTxBlock(txs[i], symbol)
  {
    if txs == [] then [] else Blocks(txs[..|txs| - 1], symbol) + [FormatTxBlock(txs[|txs| - 1], symbol)]
  }

  function Header(k: nat, n: nat): string {
    AuditPrefix + " " + NatToString(k) + "/" + NatToString(n)
  }

  function MissingHeader(m: nat, n: nat): string {
    "\n[MISSING][" + NatToString(m) + "/" + NatToString(n) + "]"
  }

  function MatchedHeader(k: nat, n: nat): string {
    "\n[MATCHED][" + NatToString(k) + "/" + NatToString(n) + "]"
  }

  /** A section: its header and one block per transaction, or nothing when it has none. */
  function Section(header: string, txs: seq<Tx>, symbol: string): seq<string> {
    if txs == [] then [] else [header] + Blocks(txs, symbol)
  }

  /** The parts of the note: header, then the missing section if any, then the matched one. */
  function NoteParts(txs: seq<Tx>): seq<string> {
    var missing := Missing(txs);
    var matched := Matched(txs);
    [Header(|matched|, |txs|)]
    + Section(MissingHeader(|missing|, |txs|), missing, MissingSymbol)
    + Section(MatchedHeader(|matched|, |txs|), matched, MatchedSymbol)
  }

  /** The note text: the parts separated by blank lines. */
  function NoteText(txs: seq<Tx>): string {
    Join(NoteParts(txs), "\n\n")
  }

  /** Appends one block per transaction, in order. */
  method AppendBlocks(parts: seq<string>, txs: seq<Tx>, symbol: string) returns (r: seq<string>)
    ensures r == parts + Blocks(txs, symbol)
  {
    r := parts;
    for i := 0 to |txs|
      invariant r == parts + Blocks(txs[..i], symbol)
    {
      BlocksNext(parts, r, txs, i, symbol);
      r := r + [FormatTxBlock(txs[i], symbol)];
    }
    assert txs[..|txs|] == txs;
  }

  lemma BlocksNext(parts: seq<string>, r: seq<string>, txs: seq<Tx>, i: nat, symbol: string)
    requires i < |txs| && r == parts + Blocks(txs[..i], symbol)
    ensures r + [FormatTxBlock(txs[i], symbol)] == parts + Blocks(txs[..i + 1], symbol)
  {
    assert txs[..i + 1][..i] == txs[..i];
    AppendAssoc(parts, Blocks(txs[..i], symbol), [FormatTxBlock(txs[i], symbol)]);
  }

  /** Appends a section, if it has any transaction. */
  method AppendSection(parts: seq<string>, header: string, txs: seq<Tx>, symbol: string) returns (r: seq<string>)
    ensures r == parts + Section(header, txs, symbol)
  {
    r := parts;
    if txs != [] {
      r := AppendBlocks(r + [header], txs, symbol);
    }
  }

  /** The rendering half of `write_audit_note`, appending part after part as the source does. */
  method RenderNote(txs: seq<Tx>) returns (text: string)
    ensures text == NoteText(txs)
  {
    var missing := Missing(txs);
    var matched := Matched(txs);
    var total := |txs|;
    var parts := [Header(|matched|, total)];
    parts := AppendSection(parts, MissingHeader(|missing|, total), missing, MissingSymbol);
    parts := AppendSection(parts, MatchedHeader(|matched|, total), matched, MatchedSymbol);
    text := Join(parts, "\n\n");
  }

  /** Every block starts with its symbol, so no block is mistaken for a section header. */
  lemma BlocksStartWithSymbol(txs: seq<Tx>, symbol: string)
    requires |symbol| > 0
    ensures forall b :: b in Blocks(txs, symbol) ==> |b| > 0 && b[0] == symbol[0]
    decreases |txs|
  {
    if txs != [] {
      BlocksStartWithSymbol(txs[..|txs| - 1], symbol);
      var tx := txs[|txs| - 1];
      TxBlockShape(tx, symbol);
      assert TitleLine(tx, symbol)[0] == symbol[0];
      assert FormatTxBlock(tx, symbol)[..|TitleLine(tx, symbol)|] == TitleLine(tx, symbol);
    }
  }

  /** The note starts with `[AUDIT] k/n`: k matched transactions out of n. */
  lemma NoteHeader(txs: seq<Tx>)
    ensures StartsWith(NoteText(txs), Header(|Matched(txs)|, |txs|))
    ensures StartsWith(NoteText(txs), AuditPrefix)
  {
    JoinStartsWithFirst(NoteParts(txs), "\n\n");
    var h := Header(|Matched(txs)|, |txs|);
    assert NoteText(txs)[..|AuditPrefix|] == h[..|AuditPrefix|];
  }

  /** With k matched out of n, the note has one part for the header, one for each section
      present and one for each transaction. */
  lemma NotePartCount(txs: seq<Tx>)
    ensures var k, n := |Matched(txs)|, |txs|;
            k <= n
            && |NoteParts(txs)| == 1 + n + (if k < n then 1 else 0) + (if k > 0 then 1 else 0)
  {
    PartitionSizes(txs);
  }

  /** A part whose first character is not the symbol is not a block. */
  lemma NotABlock(b: string, txs: seq<Tx>, symbol: string)
    requires |symbol| > 0 && |b| > 0 && b[0] != symbol[0]
    ensures b !in Blocks(txs, symbol)
  {
    BlocksStartWithSymbol(txs, symbol);
  }

  /** The three headers differ from each other and from every block in their first or fourth
      character. */
  lemma HeaderCharacters(m: nat, k: nat, n: nat)
    ensures |Header(k, n)| > 0 && Header(k, n)[0] == '['
    ensures |MissingHeader(m, n)| > 3 && MissingHeader(m, n)[0] == '\n' && MissingHeader(m, n)[3] == 'I'
    ensures |MatchedHeader(k, n)| > 3 && MatchedHeader(k, n)[0] == '\n' && MatchedHeader(k, n)[3] == 'A'
  {
  }

  /** The `[MISSING][(n-k)/n]` section is present iff some transaction is unmatched. */
  lemma MissingSection(txs: seq<Tx>)
    ensures var k, n := |Matched(txs)|, |txs|;
            k <= n && (MissingHeader(n - k, n) in NoteParts(txs) <==> k < n)
  {
    PartitionSizes(txs);
    if |Missing(txs)| == 0 {
      AllMatchedNoMissingSection(txs);
    } else {
      SomeMissingSection(txs);
    }
  }

  lemma SomeMissingSection(txs: seq<Tx>)
    requires |Missing(txs)| > 0
    ensures NoteParts(txs)[1] == MissingHeader(|Missing(txs)|, |txs|)
  {
  }

  lemma AllMatchedNoMissingSection(txs: seq<Tx>)
    requires |Missing(txs)| == 0
    ensures MissingHeader(0, |txs|) !in NoteParts(txs)
  {
    var matched := Matched(txs);
    var k, n := |matched|, |txs|;
    var mh := MissingHeader(0, n);
    HeaderCharacters(0, k, n);
    NotABlock(mh, matched, MatchedSymbol);
    var rest := Section(MatchedHeader(k, n), matched, MatchedSymbol);
    assert mh !in rest;
    assert NoteParts(txs) == [Header(k, n)] + rest;
  }

  /** The `[MATCHED][k/n]` section is present iff some transaction is matched. */
  lemma MatchedSection(txs: seq<Tx>)
    ensures var k, n := |Matched(txs)|, |txs|;
            MatchedHeader(k, n) in NoteParts(txs) <==> k > 0
  {
    var missing, matched := Missing(txs), Matched(txs);
    var k, n := |matched|, |txs|;
    var kh := MatchedHeader(k, n);
    var prefix := [Header(k, n)] + Section(MissingHeader(|missing|, n), missing, MissingSymbol);
    if k == 0 {
      assert matched == [];
      HeaderCharacters(|missing|, k, n);
      NotABlock(kh, missing, MissingSymbol);
      assert NoteParts(txs) == prefix;
    } else {
      assert NoteParts(txs)[|prefix|] == kh;
    }
  }

  // ---- the note store ----

  /** Note ids are positive, so Python's truthiness test on an id is a presence test. */
  type NoteId = x: int | x > 0 witness 1

  datatype Note = Note(id: NoteId, text: string)

  predicate IsAuditNote(note: Note) {
    StartsWith(note.text, AuditPrefix)
  }

  /** `get_existing_audit_note`: the first note whose text starts with the marker. */
  function ExistingAuditNote(notes: seq<Note>): Option<Note> {
    if notes == [] then None
    else if IsAuditNote(notes[0]) then Some(notes[0])
    else ExistingAuditNote(notes[1..])
  }

  /** The note found is an audit note that is on the document, and none is found iff no note
      is an audit note; every note before it is not an audit note. */
  lemma {:induction false} ExistingAuditNoteSpec(notes: seq<Note>)
    ensures var r := ExistingAuditNote(notes);
            (r.Some? ==> r.value in notes && IsAuditNote(r.value))
            && (r.None? <==> forall i :: 0 <= i < |notes| ==> !IsAuditNote(notes[i]))
            && (r.Some? ==> exists i :: 0 <= i < |notes| && notes[i] == r.value
                                        && forall j :: 0 <= j < i ==> !IsAuditNote(notes[j]))
    decreases |notes|
  {
    if notes != [] {
      if IsAuditNote(notes[0]) {
        assert notes[0] == ExistingAuditNote(notes).value;
      } else {
        ExistingAuditNoteSpec(notes[1..]);
        assert forall i :: 1 <= i < |notes| ==> notes[i] == notes[1..][i - 1];
        var r := ExistingAuditNote(notes);
        if r.Some? {
          var i :| 0 <= i < |notes[1..]| && notes[1..][i] == r.value
                   && forall j :: 0 <= j < i ==> !IsAuditNote(notes[1..][j]);
          assert notes[i + 1] == r.value;
        }
      }
    }
  }

  /** The notes without the one with the given id (the delete request). */
  function RemoveId(notes: seq<Note>, id: NoteId): seq<Note> {
    if notes == [] then []
    else (if notes[0].id == id then [] else [notes[0]]) + RemoveId(notes[1..], id)
  }

  /** Deleting by id keeps exactly the notes with other ids. */
  lemma {:induction false} RemoveIdSpec(notes: seq<Note>, id: NoteId)
    ensures forall n :: n in RemoveId(notes, id) <==> n in notes && n.id != id
    decreases |notes|
  {
    if notes != [] {
      RemoveIdSpec(notes[1..], id);
      assert notes == [notes[0]] + notes[1..];
    }
  }

  predicate UniqueIds(notes: seq<Note>) {
    forall i, j :: 0 <= i < j < |notes| ==> notes[i].id != notes[j].id
  }

  function AuditCount(notes: seq<Note>): nat {
    if notes == [] then 0 else (if IsAuditNote(notes[0]) then 1 else 0) + AuditCount(notes[1..])
  }

  /** The notes that are not audit notes, in order. */
  function OtherNotes(notes: seq<Note>): seq<Note> {
    if notes == [] then []
    else (if IsAuditNote(notes[0]) then [] else [notes[0]]) + OtherNotes(notes[1..])
  }

  /** The delete-then-create protocol: the old audit note, if any, is removed and the new note
      is appended. */
  function Upsert(notes: seq<Note>, id: NoteId, text: string): seq<Note> {
    var prev := ExistingAuditNote(notes);
    (if prev.Some? then RemoveId(notes, prev.value.id) else notes) + [Note(id, text)]
  }

  lemma AuditCountAppend(a: seq<Note>, b: seq<Note>)
    ensures AuditCount(a + b) == AuditCount(a) + AuditCount(b)
    ensures OtherNotes(a + b) == OtherNotes(a) + OtherNotes(b)
  {
    CountAppend(a, b);
    OthersAppend(a, b);
  }

  lemma {:induction false} CountAppend(a: seq<Note>, b: seq<Note>)
    ensures AuditCount(a + b) == AuditCount(a) + AuditCount(b)
    decreases |a|
  {
    if a == [] {
      assert a + b == b;
    } else {
      CountAppend(a[1..], b);
      assert (a + b)[0] == a[0] && (a + b)[1..] == a[1..] + b;
    }
  }

  lemma {:induction false} OthersAppend(a: seq<Note>, b: seq<Note>)
    ensures OtherNotes(a + b) == OtherNotes(a) + OtherNotes(b)
    decreases |a|
  {
    if a == [] {
      assert a + b == b;
    } else {
      OthersAppend(a[1..], b);
      assert (a + b)[0] == a[0] && (a + b)[1..] == a[1..] + b;
      var h := if IsAuditNote(a[0]) then [] else [a[0]];
      assert OtherNotes(a + b) == h + (OtherNotes(a[1..]) + OtherNotes(b));
      assert OtherNotes(a) == h + OtherNotes(a[1..]);
    }
  }

  /** Deleting the id of the first audit note removes that note, and only it. */
  lemma {:induction false} RemoveExisting(notes: seq<Note>)
    requires UniqueIds(notes) && ExistingAuditNote(notes).Some?
    ensures var r := RemoveId(notes, ExistingAuditNote(notes).value.id);
            AuditCount(r) == AuditCount(notes) - 1 && OtherNotes(r) == OtherNotes(notes)
    decreases |notes|
  {
    UniqueTail(notes);
    if IsAuditNote(notes[0]) {
      RemoveFirst(notes);
    } else {
      var o := ExistingAuditNote(notes).value;
      ExistingAuditNoteSpec(notes[1..]);
      RemoveExisting(notes[1..]);
      RemoveLater(notes, o.id);
    }
  }

  /** The rest of a list with unique ids has unique ids, none of them the first one's. */
  lemma UniqueTail(notes: seq<Note>)
    requires UniqueIds(notes) && notes != []
    ensures UniqueIds(notes[1..])
    ensures forall n :: n in notes[1..] ==> n.id != notes[0].id
  {
    var t := notes[1..];
    assert forall i :: 0 <= i < |t| ==> t[i] == notes[i + 1];
  }

  /** Deleting the id of the first note, which is an audit note found nowhere else. */
  lemma RemoveFirst(notes: seq<Note>)
    requires notes != [] && IsAuditNote(notes[0])
    requires forall n :: n in notes[1..] ==> n.id != notes[0].id
    ensures var r := RemoveId(notes, notes[0].id);
            AuditCount(r) == AuditCount(notes) - 1 && OtherNotes(r) == OtherNotes(notes)
  {
    var t := notes[1..];
    assert forall i :: 0 <= i < |t| ==> t[i] in t;
    RemoveAbsent(t, notes[0].id);
    assert RemoveId(notes, notes[0].id) == [] + t;
    assert [] + t == t;
    assert AuditCount(notes) == 1 + AuditCount(t);
    assert OtherNotes(notes) == [] + OtherNotes(t);
  }

  /** Deleting an id the first note does not carry keeps the first note in front. */
  lemma RemoveLater(notes: seq<Note>, id: NoteId)
    requires notes != [] && !IsAuditNote(notes[0]) && notes[0].id != id
    requires var r := RemoveId(notes[1..], id);
             AuditCount(r) == AuditCount(notes[1..]) - 1 && OtherNotes(r) == OtherNotes(notes[1..])
    ensures var r := RemoveId(notes, id);
            AuditCount(r) == AuditCount(notes) - 1 && OtherNotes(r) == OtherNotes(notes)
  {
    var r := RemoveId(notes[1..], id);
    assert RemoveId(notes, id) == [notes[0]] + r;
    assert ([notes[0]] + r)[1..] == r;
  }

  /** Deleting by id keeps the ids unique. */
  lemma {:induction false} RemoveKeepsUnique(notes: seq<Note>, id: NoteId)
    requires UniqueIds(notes)
    ensures UniqueIds(RemoveId(notes, id))
    decreases |notes|
  {
    if notes != [] {
      var t := notes[1..];
      assert forall i :: 0 <= i < |t| ==> t[i] == notes[i + 1];
      RemoveKeepsUnique(t, id);
      var r := RemoveId(t, id);
      RemoveIdSpec(t, id);
      if notes[0].id != id {
        forall n | n in r ensures n.id != notes[0].id {
          var i :| 0 <= i < |t| && t[i] == n;
        }
        ConsUnique(notes[0], r);
      }
    }
  }

  lemma ConsUnique(h: Note, r: seq<Note>)
    requires UniqueIds(r) && forall n :: n in r ==> n.id != h.id
    ensures UniqueIds([h] + r)
  {
    var s := [h] + r;
    forall i, j | 0 <= i < j < |s| ensures s[i].id != s[j].id {
      assert s[j] == r[j - 1];
      if i > 0 {
        assert s[i] == r[i - 1];
      }
    }
  }

  lemma {:induction false} RemoveAbsent(notes: seq<Note>, id: NoteId)
    requires forall i :: 0 <= i < |notes| ==> notes[i].id != id
    ensures RemoveId(notes, id) == notes
    decreases |notes|
  {
    if notes != [] {
      RemoveAbsent(notes[1..], id);
      assert notes == [notes[0]] + notes[1..];
    }
  }

  /**
   * Writing an audit note with a fresh id onto notes with unique ids: the other notes stay as
   * they were, in order; the old audit note is replaced, so there is one audit note if there was
   * at most one before; the new note is last.
   */
  lemma UpsertReplaces(notes: seq<Note>, id: NoteId, text: string)
    requires UniqueIds(notes) && StartsWith(text, AuditPrefix)
    ensures var r := Upsert(notes, id, text);
            OtherNotes(r) == OtherNotes(notes)
            && AuditCount(r) == (if AuditCount(notes) == 0 then 1 else AuditCount(notes))
            && r[|r| - 1] == Note(id, text)
  {
    var prev := ExistingAuditNote(notes);
    var kept := if prev.Some? then RemoveId(notes, prev.value.id) else notes;
    AuditCountAppend(kept, [Note(id, text)]);
    assert [Note(id, text)][1..] == [];
    if prev.Some? {
      RemoveExisting(notes);
      assert AuditCount(notes) > 0;
    } else {
      ExistingAuditNoteSpec(notes);
      NoAuditNotes(notes);
    }
  }

  lemma {:induction false} NoAuditNotes(notes: seq<Note>)
    requires forall i :: 0 <= i < |notes| ==> !IsAuditNote(notes[i])
    ensures AuditCount(notes) == 0
    decreases |notes|
  {
    if notes != [] {
      assert forall i :: 0 <= i < |notes| - 1 ==> notes[1..][i] == notes[i + 1];
      NoAuditNotes(notes[1..]);
    }
  }

  lemma SnocUnique(r: seq<Note>, last: Note)
    requires UniqueIds(r) && forall n :: n in r ==> n.id < last.id
    ensures UniqueIds(r + [last])
  {
    var s := r + [last];
    forall i, j | 0 <= i < j < |s| ensures s[i].id != s[j].id {
      assert s[i] == r[i];
      if j < |r| {
        assert s[j] == r[j];
      } else {
        assert r[i] in r;
      }
    }
  }

  /** The notes of each document, kept by the archive; new notes get increasing ids. */
  class NoteStore {
    var notes: map<DocId, seq<Note>>
    var nextId: NoteId

    /** Ids are unique on each document and below the next id to hand out. */
    predicate Valid()
      reads this
    {
      forall d :: d in notes ==> UniqueIds(notes[d])
                                 && forall i :: 0 <= i < |notes[d]| ==> notes[d][i].id < nextId
    }

    constructor(initial: map<DocId, seq<Note>>, next: NoteId)
      requires forall d :: d in initial ==> UniqueIds(initial[d])
                                            && forall i :: 0 <= i < |initial[d]| ==> initial[d][i].id < next
      ensures Valid() && notes == initial && nextId == next
    {
      notes := initial;
      nextId := next;
    }

    function NotesOf(doc: DocId): seq<Note>
      reads this
    {
      if doc in notes then notes[doc] else []
    }

    /** `write_audit_note`: renders the note, deletes the old audit note, appends the new one. */
    method WriteAuditNote(doc: DocId, txs: seq<Tx>)
      requires Valid()
      modifies this
      ensures Valid()
      ensures notes == old(notes)[doc := Upsert(old(NotesOf(doc)), old(nextId), NoteText(txs))]
      ensures nextId == old(nextId) + 1
    {
      var text := RenderNote(txs);
      var current := NotesOf(doc);
      var existing := ExistingAuditNote(current);
      if existing.Some? {
        current := RemoveId(current, existing.value.id);
      }
      notes := notes[doc := current + [Note(nextId, text)]];
      nextId := nextId + 1;
      forall d | d in notes
        ensures UniqueIds(notes[d]) && forall i :: 0 <= i < |notes[d]| ==> notes[d][i].id < nextId
      {
        if d == doc {
          var prevNotes := old(NotesOf(doc));
          assert UniqueIds(prevNotes) && forall n :: n in prevNotes ==> n.id < old(nextId);
          if existing.Some? {
            RemoveKeepsUnique(prevNotes, existing.value.id);
            RemoveIdSpec(prevNotes, existing.value.id);
          }
          assert forall n :: n in current ==> n in prevNotes;
          SnocUnique(current, Note(old(nextId), text));
        }
      }
    }
  }
}
