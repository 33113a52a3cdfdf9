/**
 * Reference extraction: the search tokens tried first for a transaction, most specific first.
 * The three description patterns of the extractor are written out as scanners that follow
 * Python's `re` semantics (leftmost match, greedy quantifiers with backtracking, scanning
 * resumed at the end of each match, group 1 emitted when the pattern has one):
 *   Code     `[A-Z]{2,}-\d[\d-]+\d`
 *   Number   `[Nn]r\.?\s*(\S+)`
 *   Invoice  `[Rr]ēķin\S*\s+\S*\s*(\S+)`
 */
module Refs {
  import opened Wrappers
  import opened Text
  import opened Domain

  /** `\s` on a `str` pattern: exactly the characters for which Python's `str.isspace()` holds. */
  predicate IsSpace(c: char) {
    ('\t' <= c && c <= '\r') || ('\U{1c}' <= c && c <= ' ') || c == '\U{85}' || c == '\U{a0}'
    || c == '\U{1680}' || ('\U{2000}' <= c && c <= '\U{200a}') || c == '\U{2028}' || c == '\U{2029}'
    || c == '\U{202f}' || c == '\U{205f}' || c == '\U{3000}'
  }

  predicate IsUpper(c: char) {
    'A' <= c && c <= 'Z'
  }

  predicate IsDigitOrHyphen(c: char) {
    IsDigit(c) || c == '-'
  }

  /** The characters a Code match is made of. */
  predicate IsCodeChar(c: char) {
    IsUpper(c) || IsDigitOrHyphen(c)
  }

  predicate NoSpace(t: string) {
    forall i :: 0 <= i < |t| ==> !IsSpace(t[i])
  }

  datatype CharClass = Upper | DigitOrHyphen | Space | NonSpace

  predicate InClass(k: CharClass, c: char) {
    match k
    case Upper => IsUpper(c)
    case DigitOrHyphen => IsDigitOrHyphen(c)
    case Space => IsSpace(c)
    case NonSpace => !IsSpace(c)
  }

  /** End of the longest run of class `k` starting at `i`: what a greedy `k*` consumes. */
  function RunEnd(s: string, i: nat, k: CharClass): (e: nat)
    requires i <= |s|
    ensures i <= e <= |s|
    ensures forall j :: i <= j < e ==> InClass(k, s[j])
    ensures e == |s| || !InClass(k, s[e])
    decreases |s| - i
  {
    if i < |s| && InClass(k, s[i]) then RunEnd(s, i + 1, k) else i
  }

  /** The last digit position in `[lo, hi)`: where a greedy `[\d-]+` followed by `\d` stops. */
  function LastDigit(s: string, lo: nat, hi: nat): (r: Option<nat>)
    requires lo <= hi <= |s|
    ensures r.Some? ==> lo <= r.value < hi && IsDigit(s[r.value])
                        && forall j :: r.value < j < hi ==> !IsDigit(s[j])
    ensures r.None? ==> forall j :: lo <= j < hi ==> !IsDigit(s[j])
    decreases hi - lo
  {
    if hi == lo then None
    else if IsDigit(s[hi - 1]) then Some(hi - 1)
    else LastDigit(s, lo, hi - 1)
  }

  /** A match: where scanning resumes, and the span of the text that is emitted. */
  datatype Hit = Hit(end: nat, capStart: nat, capEnd: nat)

  datatype Pattern = Code | Number | Invoice

  /** The patterns in the order the extractor applies them. */
  const Patterns: seq<Pattern> := [Code, Number, Invoice]

  /** The letters after the initial `[Rr]` of the Invoice pattern ("ēķin"). */
  const InvoiceStem: string := "\U{0113}\U{0137}in"

  /** `[A-Z]{2,}-\d[\d-]+\d` anchored at `p`; group 0 is emitted. */
  function MatchCode(s: string, p: nat): Option<Hit>
    requires p <= |s|
  {
    var a := RunEnd(s, p, Upper);
    if a - p < 2 || a + 1 >= |s| || s[a] != '-' || !IsDigit(s[a + 1]) then None
    else
      var t := RunEnd(s, a + 1, DigitOrHyphen);
      if t < a + 3 then None
      else
        var j := LastDigit(s, a + 3, t);
        if j.None? then None else Some(Hit(j.value + 1, p, j.value + 1))
  }

  /** `[Nn]r\.?\s*(\S+)` anchored at `p`. When only white space follows "Nr.", the engine
      backtracks over the optional point and the point itself is the captured token. */
  function MatchNumber(s: string, p: nat): Option<Hit>
    requires p <= |s|
  {
    if p + 1 >= |s| || !(s[p] == 'N' || s[p] == 'n') || s[p + 1] != 'r' then None
    else
      var q := p + 2;
      if q < |s| && s[q] == '.' then
        var w := RunEnd(s, q + 1, Space);
        if w < |s| then
          var e := RunEnd(s, w, NonSpace);
          Some(Hit(e, w, e))
        else
          Some(Hit(q + 1, q, q + 1))
      else
        var w := RunEnd(s, q, Space);
        if w < |s| then
          var e := RunEnd(s, w, NonSpace);
          Some(Hit(e, w, e))
        else
          None
  }

  /** `[Rr]ēķin\S*\s+\S*\s*(\S+)` anchored at `p`: the third word is captured; when there is
      none, backtracking gives the last character of the second word; with no second word
      there is no match. */
  function MatchInvoice(s: string, p: nat): Option<Hit>
    requires p <= |s|
  {
    if p + 5 > |s| || !(s[p] == 'R' || s[p] == 'r') || s[p + 1..p + 5] != InvoiceStem then None
    else
      var a := RunEnd(s, p + 5, NonSpace);
      if a == |s| then None
      else
        var b := RunEnd(s, a, Space);
        var c := RunEnd(s, b, NonSpace);
        var d := RunEnd(s, c, Space);
        if d < |s| then
          var e := RunEnd(s, d, NonSpace);
          Some(Hit(e, d, e))
        else if c > b then
          Some(Hit(c, c - 1, c))
        else
          None
  }

  /** The match of `pat` anchored at `p`, if any. Every match is non-empty. */
  function MatchAt(pat: Pattern, s: string, p: nat): (r: Option<Hit>)
    requires p <= |s|
    ensures r.Some? ==> p < r.value.end <= |s| && p <= r.value.capStart < r.value.capEnd <= r.value.end
  {
    match pat
    case Code => MatchCode(s, p)
    case Number => MatchNumber(s, p)
    case Invoice => MatchInvoice(s, p)
  }

  /** The emitted texts of `re.finditer(pat, s)` from position `p` on. */
  function FindAll(pat: Pattern, s: string, p: nat): seq<string>
    requires p <= |s|
    decreases |s| - p
  {
    if p == |s| then []
    else
      var m := MatchAt(pat, s, p);
      if m.None? then FindAll(pat, s, p + 1)
      else [s[m.value.capStart..m.value.capEnd]] + FindAll(pat, s, m.value.end)
  }

  /** The hits of the given patterns, pattern by pattern, each in scanning order. */
  function HitsOf(pats: seq<Pattern>, s: string): seq<string> {
    if pats == [] then [] else HitsOf(pats[..|pats| - 1], s) + FindAll(pats[|pats| - 1], s, 0)
  }

  /** The token list `extract_refs` returns: the reference field first when non-empty, then
      every pattern hit on the description; nothing is deduplicated. */
  function RefTokens(tx: Tx): seq<string> {
    (if tx.ref != "" then [tx.ref] else []) + HitsOf(Patterns, tx.description)
  }

  /** `extract_refs`: appends the reference and then, pattern by pattern, every hit. */
  method ExtractRefs(tx: Tx) returns (refs: seq<string>)
    ensures refs == RefTokens(tx)
  {
    refs := [];
    if tx.ref != "" {
      refs := refs + [tx.ref];
    }
    var desc := tx.description;
    ghost var head := refs;
    for k := 0 to |Patterns|
      invariant refs == head + HitsOf(Patterns[..k], desc)
    {
      ghost var before := refs;
      refs := AppendHits(refs, Patterns[k], desc);
      HitsOfNext(head, before, refs, desc, k);
    }
    assert Patterns[..|Patterns|] == Patterns;
  }

  /** The inner loop of `extract_refs`: the scan of `re.finditer`, appending each emitted text. */
  method AppendHits(refs: seq<string>, pat: Pattern, s: string) returns (r: seq<string>)
    ensures r == refs + FindAll(pat, s, 0)
  {
    r := refs;
    var p := 0;
    ghost var goal := refs + FindAll(pat, s, 0);
    while p < |s|
      invariant p <= |s|
      invariant r + FindAll(pat, s, p) == goal
      decreases |s| - p
    {
      var m := MatchAt(pat, s, p);
      if m.None? {
        ScanMiss(goal, r, pat, s, p);
        p := p + 1;
      } else {
        var h := m.value;
        ScanHit(goal, r, pat, s, p, h);
        r := r + [s[h.capStart..h.capEnd]];
        p := h.end;
      }
    }
    assert r + FindAll(pat, s, p) == r;
  }

  lemma ScanMiss(goal: seq<string>, r: seq<string>, pat: Pattern, s: string, p: nat)
    requires p < |s| && MatchAt(pat, s, p).None? && r + FindAll(pat, s, p) == goal
    ensures r + FindAll(pat, s, p + 1) == goal
  {
  }

  lemma ScanHit(goal: seq<string>, r: seq<string>, pat: Pattern, s: string, p: nat, h: Hit)
    requires p < |s| && MatchAt(pat, s, p) == Some(h) && r + FindAll(pat, s, p) == goal
    ensures h.capStart <= h.capEnd <= h.end <= |s|
    ensures (r + [s[h.capStart..h.capEnd]]) + FindAll(pat, s, h.end) == goal
  {
    AppendAssoc(r, [s[h.capStart..h.capEnd]], FindAll(pat, s, h.end));
  }

  /** One more pattern scanned: its hits follow those of the earlier patterns. */
  lemma HitsOfNext(head: seq<string>, before: seq<string>, after: seq<string>, s: string, k: nat)
    requires k < |Patterns|
    requires before == head + HitsOf(Patterns[..k], s)
    requires after == before + FindAll(Patterns[k], s, 0)
    ensures after == head + HitsOf(Patterns[..k + 1], s)
  {
    assert Patterns[..k + 1][..k] == Patterns[..k];
    AppendAssoc(head, HitsOf(Patterns[..k], s), FindAll(Patterns[k], s, 0));
  }

  // ---- what the token list is made of ----

  /** The order of the list: the reference, then all Code hits, then all Number hits, then all
      Invoice hits. */
  lemma RefTokensOrder(tx: Tx)
    ensures RefTokens(tx) == (if tx.ref != "" then [tx.ref] else [])
                             + FindAll(Code, tx.description, 0)
                             + FindAll(Number, tx.description, 0)
                             + FindAll(Invoice, tx.description, 0)
  {
    var s := tx.description;
    var head := if tx.ref != "" then [tx.ref] else [];
    HitsOfPatterns(s);
    AppendAssoc(head, FindAll(Code, s, 0) + FindAll(Number, s, 0), FindAll(Invoice, s, 0));
    AppendAssoc(head, FindAll(Code, s, 0), FindAll(Number, s, 0));
  }

  /** The three patterns' hits, in the order of the patterns. */
  lemma HitsOfPatterns(s: string)
    ensures HitsOf(Patterns, s) == FindAll(Code, s, 0) + FindAll(Number, s, 0) + FindAll(Invoice, s, 0)
  {
    assert Patterns[..2] == [Code, Number];
    assert Patterns[..2][..1] == [Code];
    assert [Code][..0] == [];
    assert HitsOf(Patterns, s) == HitsOf(Patterns[..2], s) + FindAll(Invoice, s, 0);
    assert HitsOf([Code, Number], s) == HitsOf([Code], s) + FindAll(Number, s, 0);
    assert HitsOf([Code], s) == FindAll(Code, s, 0);
  }

  /** A non-empty reference field is the first token, verbatim. */
  lemma RefFirst(tx: Tx)
    requires tx.ref != ""
    ensures |RefTokens(tx)| > 0 && RefTokens(tx)[0] == tx.ref
  {
  }

  /** Every token is the reference field or a non-empty, space-free piece of the description. */
  lemma RefTokensFromDescription(tx: Tx)
    ensures forall t :: t in RefTokens(tx) ==> t == tx.ref || Occurs(t, tx.description)
    ensures forall t :: t in RefTokens(tx) && t != tx.ref ==> |t| > 0 && NoSpace(t)
  {
    var s := tx.description;
    var head := if tx.ref != "" then [tx.ref] else [];
    var a, b, c := FindAll(Code, s, 0), FindAll(Number, s, 0), FindAll(Invoice, s, 0);
    RefTokensOrder(tx);
    assert RefTokens(tx) == head + a + b + c;
    FindAllSound(Code, s, 0);
    FindAllSound(Number, s, 0);
    FindAllSound(Invoice, s, 0);
    SoundElements(Code, s, a);
    SoundElements(Number, s, b);
    SoundElements(Invoice, s, c);
    forall t | t in RefTokens(tx) && t != tx.ref
      ensures |t| > 0 && NoSpace(t) && Occurs(t, s)
    {
      assert t in a || t in b || t in c;
    }
  }

  /** `t` is a piece of `s`. */
  ghost predicate Occurs(t: string, s: string) {
    exists j :: OccursAt(t, s, j)
  }

  predicate OccursAt(t: string, s: string, j: int) {
    0 <= j <= |s| - |t| && s[j..j + |t|] == t
  }

  /** A code as pattern (a) describes it: two or more capitals, a hyphen, a digit, at least one
      digit or hyphen, and a final digit. The capitals are the leading run of capitals, since a
      hyphen is not one. */
  predicate IsCodeToken(t: string) {
    var k := RunEnd(t, 0, Upper);
    2 <= k && k + 4 <= |t| && t[k] == '-' && IsDigit(t[k + 1])
    && (forall i :: k + 2 <= i < |t| - 1 ==> IsDigitOrHyphen(t[i]))
    && IsDigit(t[|t| - 1])
  }

  /** What each pattern's emitted text looks like. */
  predicate PatternToken(pat: Pattern, t: string) {
    |t| > 0 && NoSpace(t) && (pat == Code ==> IsCodeToken(t))
  }

  /** A run is determined by its extent: the end of a maximal run is `RunEnd`. */
  lemma {:induction false} RunEndUnique(s: string, i: nat, k: CharClass, e: nat)
    requires i <= e <= |s|
    requires forall j :: i <= j < e ==> InClass(k, s[j])
    requires e == |s| || !InClass(k, s[e])
    ensures RunEnd(s, i, k) == e
    decreases e - i
  {
    if i < e {
      RunEndUnique(s, i + 1, k, e);
    }
  }

  /** A Code match spans code characters only and its text has the shape of pattern (a). */
  lemma CodeHitShape(s: string, p: nat)
    requires p <= |s| && MatchCode(s, p).Some?
    ensures var h := MatchCode(s, p).value;
            h.capStart == p && h.capEnd == h.end
            && (forall i :: p <= i < h.end ==> IsCodeChar(s[i]))
            && IsCodeToken(s[p..h.end])
  {
    var a := RunEnd(s, p, Upper);
    var t0 := RunEnd(s, a + 1, DigitOrHyphen);
    var j := LastDigit(s, a + 3, t0).value;
    var h := MatchCode(s, p).value;
    assert h == Hit(j + 1, p, j + 1);
    CodeSpanChars(s, p, a, t0, h.end);
    CodeSpanToken(s, p, a, t0, j, h.end);
  }

  lemma CodeSpanChars(s: string, p: nat, a: nat, t0: nat, e: nat)
    requires p <= a < t0 <= |s| && e <= t0
    requires forall i :: p <= i < a ==> IsUpper(s[i])
    requires s[a] == '-'
    requires forall i :: a + 1 <= i < t0 ==> IsDigitOrHyphen(s[i])
    ensures forall i :: p <= i < e ==> IsCodeChar(s[i])
  {
  }

  lemma CodeSpanToken(s: string, p: nat, a: nat, t0: nat, j: nat, e: nat)
    requires p + 2 <= a && a + 3 <= j < t0 <= |s| && e == j + 1
    requires forall i :: p <= i < a ==> IsUpper(s[i])
    requires s[a] == '-' && IsDigit(s[a + 1]) && IsDigit(s[j])
    requires forall i :: a + 1 <= i < t0 ==> IsDigitOrHyphen(s[i])
    ensures IsCodeToken(s[p..e])
  {
    var t := s[p..e];
    assert forall i :: 0 <= i < |t| ==> t[i] == s[p + i];
    RunEndUnique(t, 0, Upper, a - p);
  }

  lemma NoSpaceSpan(s: string, lo: nat, hi: nat)
    requires lo <= hi <= |s|
    requires forall j :: lo <= j < hi ==> !IsSpace(s[j])
    ensures NoSpace(s[lo..hi])
  {
    forall i | 0 <= i < hi - lo ensures !IsSpace(s[lo..hi][i]) {
      assert s[lo..hi][i] == s[lo + i];
    }
  }

  lemma MatchSound(pat: Pattern, s: string, p: nat)
    requires p <= |s| && MatchAt(pat, s, p).Some?
    ensures var h := MatchAt(pat, s, p).value; PatternToken(pat, s[h.capStart..h.capEnd])
  {
    var h := MatchAt(pat, s, p).value;
    match pat
    case Code =>
      CodeHitShape(s, p);
      CodeCharsNoSpace(s, h.capStart, h.capEnd);
    case Number =>
      NumberSpan(s, p);
    case Invoice =>
      InvoiceSpan(s, p);
    NoSpaceSpan(s, h.capStart, h.capEnd);
  }

  lemma CodeCharsNoSpace(s: string, lo: nat, hi: nat)
    requires lo <= hi <= |s|
    requires forall j :: lo <= j < hi ==> IsCodeChar(s[j])
    ensures forall j :: lo <= j < hi ==> !IsSpace(s[j])
  {
  }

  /** The text a Number match emits is free of white space. */
  lemma NumberSpan(s: string, p: nat)
    requires p <= |s| && MatchNumber(s, p).Some?
    ensures var h := MatchNumber(s, p).value; forall j :: h.capStart <= j < h.capEnd ==> !IsSpace(s[j])
  {
  }

  /** The text an Invoice match emits is free of white space. */
  lemma InvoiceSpan(s: string, p: nat)
    requires p <= |s| && MatchInvoice(s, p).Some?
    ensures var h := MatchInvoice(s, p).value; forall j :: h.capStart <= j < h.capEnd ==> !IsSpace(s[j])
  {
  }

  /** A hit emits its text and scanning resumes at its end. */
  lemma FindAllHit(pat: Pattern, s: string, p: nat, h: Hit)
    requires p < |s| && MatchAt(pat, s, p) == Some(h)
    ensures h.capStart <= h.capEnd <= h.end <= |s|
    ensures FindAll(pat, s, p) == [s[h.capStart..h.capEnd]] + FindAll(pat, s, h.end)
  {
  }

  /** Every text in `ts` is a non-empty, space-free piece of `s` shaped as `pat` describes. */
  ghost predicate Sound(pat: Pattern, s: string, ts: seq<string>)
    decreases |ts|
  {
    ts == [] || (PatternToken(pat, ts[0]) && Occurs(ts[0], s) && Sound(pat, s, ts[1..]))
  }

  lemma SoundCons(pat: Pattern, s: string, t: string, ts: seq<string>)
    requires PatternToken(pat, t) && Occurs(t, s) && Sound(pat, s, ts)
    ensures Sound(pat, s, [t] + ts)
  {
    assert ([t] + ts)[0] == t && ([t] + ts)[1..] == ts;
  }

  lemma {:induction false} SoundElements(pat: Pattern, s: string, ts: seq<string>)
    requires Sound(pat, s, ts)
    ensures forall t :: t in ts ==> PatternToken(pat, t) && Occurs(t, s)
    decreases |ts|
  {
    if ts != [] {
      SoundElements(pat, s, ts[1..]);
      assert ts == [ts[0]] + ts[1..];
    }
  }

  /** Every emitted text is a non-empty, space-free piece of the searched text, and every Code
      hit has the shape of pattern (a). */
  lemma {:induction false} FindAllSound(pat: Pattern, s: string, p: nat)
    requires p <= |s|
    ensures Sound(pat, s, FindAll(pat, s, p))
    decreases |s| - p
  {
    if p < |s| {
      var m := MatchAt(pat, s, p);
      if m.None? {
        FindAllSound(pat, s, p + 1);
        SoundMiss(pat, s, p);
      } else {
        FindAllSound(pat, s, m.value.end);
        SoundHit(pat, s, p, m.value);
      }
    }
  }

  lemma SoundMiss(pat: Pattern, s: string, p: nat)
    requires p < |s| && MatchAt(pat, s, p).None? && Sound(pat, s, FindAll(pat, s, p + 1))
    ensures Sound(pat, s, FindAll(pat, s, p))
  {
    FindAllMiss(pat, s, p);
  }

  lemma SoundHit(pat: Pattern, s: string, p: nat, h: Hit)
    requires p < |s| && MatchAt(pat, s, p) == Some(h)
    requires h.end <= |s| && Sound(pat, s, FindAll(pat, s, h.end))
    ensures Sound(pat, s, FindAll(pat, s, p))
  {
    FindAllHit(pat, s, p, h);
    MatchSound(pat, s, p);
    var t := s[h.capStart..h.capEnd];
    assert OccursAt(t, s, h.capStart);
    SoundCons(pat, s, t, FindAll(pat, s, h.end));
  }

  // ---- what the token list is sure to contain ----

  /** No match starting in `[p, q)` runs past `q`. */
  ghost predicate NoneCross(pat: Pattern, s: string, p: nat, q: nat)
    requires p <= q <= |s|
    decreases q - p
  {
    p == q || ((MatchAt(pat, s, p).None? || MatchAt(pat, s, p).value.end <= q) && NoneCross(pat, s, p + 1, q))
  }

  /** A stretch with no crossing match has none from any later start either. */
  lemma {:induction false} NoneCrossLater(pat: Pattern, s: string, p: nat, r: nat, q: nat)
    requires p <= r <= q <= |s| && NoneCross(pat, s, p, q)
    ensures NoneCross(pat, s, r, q)
    decreases r - p
  {
    if p < r {
      NoneCrossLater(pat, s, p + 1, r, q);
    }
  }

  /** The stepwise definition agrees with the one that quantifies over the starts. */
  lemma {:induction false} NoneCrossAll(pat: Pattern, s: string, p: nat, q: nat)
    requires p <= q <= |s|
    requires forall j :: p <= j < q ==> MatchAt(pat, s, j).None? || MatchAt(pat, s, j).value.end <= q
    ensures NoneCross(pat, s, p, q)
    decreases q - p
  {
    if p < q {
      NoneCrossAll(pat, s, p + 1, q);
    }
  }

  /** Scanning from `p` reaches `q` when no match starting in between runs past `q`: the hits
      from `q` on are a suffix of those from `p` on. */
  lemma {:induction false} FindAllReaches(pat: Pattern, s: string, p: nat, q: nat) returns (pre: seq<string>)
    requires p <= q <= |s| && NoneCross(pat, s, p, q)
    ensures FindAll(pat, s, p) == pre + FindAll(pat, s, q)
    decreases q - p
  {
    if p == q {
      pre := [];
    } else if MatchAt(pat, s, p).None? {
      var rest := FindAllReaches(pat, s, p + 1, q);
      ReachMiss(pat, s, p, q, rest);
      pre := rest;
    } else {
      var h := MatchAt(pat, s, p).value;
      NoneCrossLater(pat, s, p, h.end, q);
      var rest := FindAllReaches(pat, s, h.end, q);
      pre := ReachHit(pat, s, p, q, h, rest);
    }
  }

  /** A miss in front of a stretch that reaches `q` adds nothing. */
  lemma ReachMiss(pat: Pattern, s: string, p: nat, q: nat, rest: seq<string>)
    requires p < |s| && MatchAt(pat, s, p).None? && q <= |s|
    requires FindAll(pat, s, p + 1) == rest + FindAll(pat, s, q)
    ensures FindAll(pat, s, p) == rest + FindAll(pat, s, q)
  {
    FindAllMiss(pat, s, p);
  }

  /** A hit in front of a stretch that reaches `q` emits its text there. */
  lemma ReachHit(pat: Pattern, s: string, p: nat, q: nat, h: Hit, rest: seq<string>) returns (pre: seq<string>)
    requires p < |s| && MatchAt(pat, s, p) == Some(h) && q <= |s|
    requires FindAll(pat, s, h.end) == rest + FindAll(pat, s, q)
    ensures FindAll(pat, s, p) == pre + FindAll(pat, s, q)
  {
    FindAllHit(pat, s, p, h);
    pre := [s[h.capStart..h.capEnd]] + rest;
    AppendAssoc([s[h.capStart..h.capEnd]], rest, FindAll(pat, s, q));
  }

  /** A position where nothing matches is passed over. */
  lemma FindAllMiss(pat: Pattern, s: string, p: nat)
    requires p < |s| && MatchAt(pat, s, p).None?
    ensures FindAll(pat, s, p) == FindAll(pat, s, p + 1)
  {
  }

  /** With no match anywhere from `p` on, there are no hits. */
  lemma {:induction false} FindAllEmpty(pat: Pattern, s: string, p: nat)
    requires p <= |s|
    requires forall j :: p <= j < |s| ==> MatchAt(pat, s, j).None?
    ensures FindAll(pat, s, p) == []
    decreases |s| - p
  {
    if p < |s| {
      assert MatchAt(pat, s, p).None?;
      FindAllMiss(pat, s, p);
      FindAllEmpty(pat, s, p + 1);
    }
  }

  /** A code followed by neither a digit nor a hyphen is matched whole where it starts. */
  lemma CodeMatchesAt(s: string, p: nat, t: string)
    requires IsCodeToken(t) && p + |t| <= |s| && s[p..p + |t|] == t
    requires p + |t| == |s| || !IsDigitOrHyphen(s[p + |t|])
    ensures MatchCode(s, p) == Some(Hit(p + |t|, p, p + |t|))
  {
    var k := RunEnd(t, 0, Upper);
    forall i | 0 <= i < |t| ensures s[p + i] == t[i] {
      assert s[p..p + |t|][i] == s[p + i];
    }
    RunEndUnique(s, p, Upper, p + k);
    var a := p + k;
    forall j | a + 1 <= j < p + |t| ensures IsDigitOrHyphen(s[j]) {
      assert s[j] == t[j - p];
    }
    RunEndUnique(s, a + 1, DigitOrHyphen, p + |t|);
  }

  /**
   * A code standing between separators is always a token: the text before it ends in a
   * character no code contains, the text after it starts with neither a digit nor a hyphen.
   */
  lemma CodeFound(u: string, t: string, v: string)
    requires IsCodeToken(t)
    requires u == [] || !IsCodeChar(u[|u| - 1])
    requires v == [] || !IsDigitOrHyphen(v[0])
    ensures t in FindAll(Code, u + t + v, 0)
  {
    var s := u + t + v;
    var p := |u|;
    forall j | 0 <= j < p
      ensures MatchAt(Code, s, j).None? || MatchAt(Code, s, j).value.end <= p
    {
      if MatchCode(s, j).Some? {
        CodeHitShape(s, j);
        assert s[p - 1] == u[p - 1];
      }
    }
    NoneCrossAll(Code, s, 0, p);
    var pre := FindAllReaches(Code, s, 0, p);
    assert s[p..p + |t|] == t;
    if v != [] {
      assert s[p + |t|] == v[0];
    }
    CodeMatchesAt(s, p, t);
    assert FindAll(Code, s, p)[0] == t;
  }

  /** The description "Invoice DH-202512-10218 payment": its code is among the tokens. */
  lemma InvoiceCodeExample(tx: Tx)
    requires tx.description == "Invoice " + "DH-202512-10218" + " payment"
    ensures "DH-202512-10218" in RefTokens(tx)
  {
    var t := "DH-202512-10218";
    ExampleCode(t);
    CodeFound("Invoice ", t, " payment");
    RefTokensOrder(tx);
  }

  lemma ExampleCode(t: string)
    requires t == "DH-202512-10218"
    ensures IsCodeToken(t)
  {
    RunEndUnique(t, 0, Upper, 2);
    forall i | 4 <= i < |t| - 1 ensures IsDigitOrHyphen(t[i]) {
    }
  }

  /** A text without a hyphen has no Code hits. */
  lemma NoHyphenNoCode(s: string)
    requires '-' !in s
    ensures FindAll(Code, s, 0) == []
  {
    forall j | 0 <= j < |s| ensures MatchAt(Code, s, j).None? {
      var a := RunEnd(s, j, Upper);
      if a < |s| {
        assert s[a] in s;
      }
    }
    FindAllEmpty(Code, s, 0);
  }

  /** The description of the second worked example. */
  const ExampleText: string := "r\U{0113}\U{0137}ins Nr. 42"

  lemma ExampleNumberHits(s: string)
    requires s == ExampleText
    ensures FindAll(Number, s, 0) == ["42"]
  {
    ExampleNumberMisses(s);
    ExampleNumberHit(s);
  }

  /** No Number match starts before "Nr.". */
  lemma ExampleNumberMisses(s: string)
    requires s == ExampleText
    ensures FindAll(Number, s, 0) == FindAll(Number, s, 7)
  {
    forall j | 0 <= j < 7 ensures MatchAt(Number, s, j).None? {
      assert s[j] != 'N' && (s[j] == 'n' ==> s[j + 1] != 'r');
    }
    FindAllMiss(Number, s, 0);
    FindAllMiss(Number, s, 1);
    FindAllMiss(Number, s, 2);
    FindAllMiss(Number, s, 3);
    FindAllMiss(Number, s, 4);
    FindAllMiss(Number, s, 5);
    FindAllMiss(Number, s, 6);
  }

  /** At "Nr." the number after the point and the space is captured, and the scan ends. */
  lemma ExampleNumberHit(s: string)
    requires s == ExampleText
    ensures FindAll(Number, s, 7) == ["42"]
  {
    RunEndUnique(s, 10, Space, 11);
    RunEndUnique(s, 11, NonSpace, 13);
    assert MatchAt(Number, s, 7) == Some(Hit(13, 11, 13));
    FindAllHit(Number, s, 7, Hit(13, 11, 13));
    assert s[11..13] == "42";
  }

  lemma ExampleInvoiceHits(s: string)
    requires s == ExampleText
    ensures FindAll(Invoice, s, 0) == ["42"]
  {
    ExampleInvoiceMatch(s);
    ExampleFortyTwo(s);
  }

  lemma ExampleFortyTwo(s: string)
    requires s == ExampleText
    ensures s[11..13] == "42"
  {
    assert s[11] == '4' && s[12] == '2';
  }

  /** A hit that runs to the end of the text is the last one. */
  lemma OnlyHit(pat: Pattern, s: string, p: nat, h: Hit)
    requires p < |s| && MatchAt(pat, s, p) == Some(h) && h.end == |s|
    ensures FindAll(pat, s, p) == [s[h.capStart..h.capEnd]]
  {
    FindAllHit(pat, s, p, h);
  }

  /** The Invoice pattern matches the whole example once and captures its third word. */
  lemma ExampleInvoiceMatch(s: string)
    requires s == ExampleText
    ensures FindAll(Invoice, s, 0) == [s[11..13]]
  {
    ExampleInvoiceAt(s);
    OnlyHit(Invoice, s, 0, Hit(13, 11, 13));
  }

  lemma ExampleInvoiceAt(s: string)
    requires s == ExampleText
    ensures MatchAt(Invoice, s, 0) == Some(Hit(13, 11, 13))
  {
    RunEndUnique(s, 5, NonSpace, 6);
    RunEndUnique(s, 6, Space, 7);
    RunEndUnique(s, 7, NonSpace, 10);
    RunEndUnique(s, 10, Space, 11);
    RunEndUnique(s, 11, NonSpace, 13);
    assert s[1..5] == InvoiceStem;
  }

  /**
   * "rēķins Nr. 42": pattern (b) captures the number after "Nr.", pattern (c) captures the third
   * word after "rēķins", and both hits are kept although they are equal.
   */
  lemma InvoiceNumberExample(tx: Tx)
    requires tx.ref == "" && tx.description == ExampleText
    ensures RefTokens(tx) == ["42", "42"]
  {
    NoHyphenNoCode(tx.description);
    ExampleNumberHits(tx.description);
    ExampleInvoiceHits(tx.description);
    RefTokensOrder(tx);
  }

  /** A text without the letter "ē" has no Invoice hits. */
  lemma NoStemNoInvoice(s: string)
    requires '\U{0113}' !in s
    ensures FindAll(Invoice, s, 0) == []
  {
    forall j | 0 <= j < |s| ensures MatchAt(Invoice, s, j).None? {
      if j + 5 <= |s| {
        assert s[j + 1..j + 5][0] == s[j + 1];
        assert s[j + 1] in s;
      }
    }
    FindAllEmpty(Invoice, s, 0);
  }

  lemma NumberOnlyHits(s: string)
    requires s == "Nr. 55231"
    ensures FindAll(Number, s, 0) == ["55231"]
  {
    RunEndUnique(s, 3, Space, 4);
    RunEndUnique(s, 4, NonSpace, 9);
    assert MatchAt(Number, s, 0) == Some(Hit(9, 4, 9));
    assert FindAll(Number, s, 0) == [s[4..9]] + FindAll(Number, s, 9);
    assert s[4..9] == "55231";
  }

  /** A transaction without a reference whose description is "Nr. 55231" has the number as its
      only token. */
  lemma NumberOnlyExample(tx: Tx)
    requires tx.ref == "" && tx.description == "Nr. 55231"
    ensures RefTokens(tx) == ["55231"]
  {
    NoHyphenNoCode(tx.description);
    NoStemNoInvoice(tx.description);
    NumberOnlyHits(tx.description);
    RefTokensOrder(tx);
  }
}
