/** The summaries of the audit rows: how the execute pipeline writes and redacts them, and what a second
    redaction, the one inside `log`, does to them. */
module SummaryRedaction {
  import opened JsText
  import opened Utf8
  import opened AuditChain

  const MAX_LENGTH := 500
  const KEPT := 485

  /** "... [truncated]" */
  const SUFFIX: Text := [46, 46, 46, 32, 91, 116, 114, 117, 110, 99, 97, 116, 101, 100, 93]

  function Cut(t: Text): Text
    requires |t| >= KEPT
  {
    t[..KEPT] + SUFFIX
  }

  function Shorten(t: Text): Text {
    if |t| > MAX_LENGTH then Cut(t) else t
  }

  /** `redactCredentials`, with `clean` for the patterns. */
  function RedactWith(clean: Text -> Text): Text -> Text {
    (t: Text) => Shorten(clean(t))
  }

  // ---- The second redaction.

  /** A summary that the pipeline redacted survives `log` exactly when it was short and cleaning it once
      more changes nothing, or it was cut and cleaning the cut text once more, and cutting it again where
      it grew, changes nothing. */
  lemma PreRedactedStableIff(p: Primitives, clean: Text -> Text, raw: Text)
    requires p.redact == RedactWith(clean)
    ensures var once := clean(raw);
      StableSummary(p, p.redact(raw)) <==>
        if |once| > MAX_LENGTH then p.store(Shorten(clean(Cut(once)))) == Cut(once)
        else p.store(Shorten(clean(once))) == once
  { }

  /** Where cleaning is done after one pass, only cut summaries can be changed. */
  lemma ShortSummariesAreStable(p: Primitives, clean: Text -> Text, raw: Text)
    requires p.redact == RedactWith(clean) && SoundStore(p)
    requires clean(clean(raw)) == clean(raw) && |clean(raw)| <= MAX_LENGTH
    ensures StableSummary(p, p.redact(raw)) <==> WellFormed(clean(raw))
  { }

  /** A cut through a surrogate pair is never stable. */
  lemma HalvedPairIsUnstable(p: Primitives, clean: Text -> Text, raw: Text)
    requires p.redact == RedactWith(clean) && SoundStore(p)
    requires |clean(raw)| > MAX_LENGTH && IsHigh(clean(raw)[KEPT - 1])
    ensures !StableSummary(p, p.redact(raw))
  {
    var cut := Cut(clean(raw));
    assert cut[KEPT - 1] == clean(raw)[KEPT - 1] && cut[KEPT] == SUFFIX[0];
    assert !WellFormed(cut);
  }

  lemma PrefixWellFormedIff(t: Text, n: nat)
    requires WellFormed(t) && 0 < n <= |t|
    ensures WellFormed(t[..n]) <==> !IsHigh(t[n - 1])
  {
    var head := t[..n];
    assert forall i :: 0 <= i < n ==> head[i] == t[i];
    assert head[n - 1] == t[n - 1];
  }

  ghost predicate NoSurrogates(t: Text) {
    forall i :: 0 <= i < |t| ==> !IsHigh(t[i]) && !IsLow(t[i])
  }

  lemma AppendPlain(a: Text, b: Text)
    requires NoSurrogates(b)
    ensures WellFormed(a + b) <==> WellFormed(a)
  {
    var t := a + b;
    assert forall i :: 0 <= i < |a| ==> t[i] == a[i];
    assert forall i :: |a| <= i < |t| ==> t[i] == b[i - |a|];
    if WellFormed(t) {
      forall i | 0 <= i < |a| && IsHigh(a[i]) ensures i + 1 < |a| && IsLow(a[i + 1]) {
        assert IsHigh(t[i]) && IsLow(t[i + 1]);
      }
      forall i | 0 <= i < |a| && IsLow(a[i]) ensures 0 < i && IsHigh(a[i - 1]) {
        assert IsLow(t[i]) && IsHigh(t[i - 1]);
      }
    }
  }

  /** A cut keeps a text free of lone surrogates exactly when it does not go through a pair. */
  lemma CutWellFormedIff(t: Text)
    requires |t| > MAX_LENGTH && WellFormed(t)
    ensures WellFormed(Cut(t)) <==> !IsHigh(t[KEPT - 1])
  {
    PrefixWellFormedIff(t, KEPT);
    AppendPlain(t[..KEPT], SUFFIX);
  }

  // ---- The pattern for social security numbers.

  const HYPHEN: CodeUnit := 45

  /** "[PII_REDACTED]" */
  const PII_REDACTED: Text := [91, 80, 73, 73, 95, 82, 69, 68, 65, 67, 84, 69, 68, 93]

  predicate IsDigit(u: CodeUnit) { 48 <= u <= 57 }

  predicate IsWord(u: CodeUnit) {
    IsDigit(u) || 65 <= u <= 90 || u == 95 || 97 <= u <= 122
  }

  /** Three, two and four digits with hyphens between them, from `i` on. */
  predicate NumberAt(t: Text, i: int) {
    && 0 <= i && i + 11 <= |t|
    && IsDigit(t[i]) && IsDigit(t[i + 1]) && IsDigit(t[i + 2]) && t[i + 3] == HYPHEN
    && IsDigit(t[i + 4]) && IsDigit(t[i + 5]) && t[i + 6] == HYPHEN
    && IsDigit(t[i + 7]) && IsDigit(t[i + 8]) && IsDigit(t[i + 9]) && IsDigit(t[i + 10])
  }

  /** The pattern matches at `i`: a number with a word boundary on either side. */
  predicate SsnAt(t: Text, i: int) {
    NumberAt(t, i) && (i > 0 ==> !IsWord(t[i - 1])) && (i + 11 < |t| ==> !IsWord(t[i + 11]))
  }

  /** Replaces every match from `i` on. */
  function SsnFrom(t: Text, i: nat): Text
    requires i <= |t|
    decreases |t| - i
  {
    if i == |t| then []
    else if SsnAt(t, i) then PII_REDACTED + SsnFrom(t, i + 11)
    else [t[i]] + SsnFrom(t, i + 1)
  }

  function Ssn(t: Text): Text {
    SsnFrom(t, 0)
  }

  lemma {:induction false} NothingFrom(t: Text, i: nat)
    requires i <= |t| && forall j :: i <= j < |t| ==> !SsnAt(t, j)
    ensures SsnFrom(t, i) == t[i..]
    decreases |t| - i
  {
    if i < |t| {
      NothingFrom(t, i + 1);
      assert t[i..] == [t[i]] + t[i + 1..];
    }
  }

  lemma RegroupUnit(u: CodeUnit, a: Text, b: Text, c: Text)
    ensures [u] + (a + b + c) == [u] + a + b + c
  { }

  /** Up to the first match nothing changes, and there the replacement stands. */
  lemma {:induction false} FirstReplaced(t: Text, i: nat, j: nat)
    requires i <= j < |t| && SsnAt(t, j) && forall k :: i <= k < j ==> !SsnAt(t, k)
    ensures SsnFrom(t, i) == t[i..j] + PII_REDACTED + SsnFrom(t, j + 11)
    decreases j - i
  {
    if i < j {
      FirstReplaced(t, i + 1, j);
      assert t[i..j] == [t[i]] + t[i + 1..j];
      RegroupUnit(t[i], t[i + 1..j], PII_REDACTED, SsnFrom(t, j + 11));
    } else {
      assert t[i..j] == [];
    }
  }

  ghost predicate SsnFree(t: Text) {
    forall j :: 0 <= j < |t| ==> !SsnAt(t, j)
  }

  /** The cut leaves a number that the rest of the text had protected: its last unit is the last one kept,
      a word begins at its first, and more of the word follows what was kept. */
  predicate Uncovered(t: Text)
    requires |t| > MAX_LENGTH
  {
    NumberAt(t, KEPT - 11) && !IsWord(t[KEPT - 12])
  }

  lemma CutUnits(t: Text, i: nat)
    requires |t| > MAX_LENGTH
    ensures |Cut(t)| == MAX_LENGTH
    ensures i < KEPT ==> Cut(t)[i] == t[i]
    ensures KEPT <= i < MAX_LENGTH ==> Cut(t)[i] == SUFFIX[i - KEPT]
  { }

  /** In the cut text of a text without matches there is at most one, and that at its very end. */
  lemma CutMatches(t: Text, i: nat)
    requires |t| > MAX_LENGTH && SsnFree(t) && i < MAX_LENGTH
    ensures SsnAt(Cut(t), i) <==> i == KEPT - 11 && Uncovered(t)
  {
    var cut := Cut(t);
    if i + 11 < KEPT {
      assert cut[..KEPT] == t[..KEPT];
      assert forall j :: 0 <= j < KEPT ==> cut[j] == t[..KEPT][j] == t[j];
      assert SsnAt(cut, i) <==> SsnAt(t, i);
    } else if i + 11 == KEPT {
      assert forall j :: 0 <= j < KEPT ==> cut[j] == t[j];
      assert cut[KEPT] == SUFFIX[0] && !IsWord(SUFFIX[0]);
    } else {
      NoNumberInSuffix(t, i);
    }
  }

  lemma NoNumberInSuffix(t: Text, i: nat)
    requires |t| > MAX_LENGTH && KEPT < i + 11 && i < MAX_LENGTH
    ensures !NumberAt(Cut(t), i)
  {
    var cut := Cut(t);
    if i <= KEPT {
      assert cut[KEPT] == SUFFIX[0] == 46;
      UnitOfNumber(cut, i, KEPT);
    } else {
      CutUnits(t, i);
      assert !IsDigit(SUFFIX[i - KEPT]);
    }
  }

  lemma UnitOfNumber(t: Text, i: nat, j: nat)
    requires i <= j < i + 11
    ensures NumberAt(t, i) ==> j < |t| && (IsDigit(t[j]) || t[j] == HYPHEN)
  {
    var d := j - i;
    assert d == 0 || d == 1 || d == 2 || d == 3 || d == 4 || d == 5 || d == 6 || d == 7 || d == 8 || d == 9 || d == 10;
  }

  /** Redacting social security numbers twice differs from redacting them once exactly when the cut uncovers
      one. */
  lemma SecondPassIff(t: Text)
    requires |t| > MAX_LENGTH && SsnFree(t)
    ensures Shorten(Ssn(t)) == Cut(t)
    ensures Shorten(Ssn(Cut(t))) == Cut(t) <==> !Uncovered(t)
  {
    var cut := Cut(t);
    NothingFrom(t, 0);
    assert t[0..] == t && cut[0..] == cut;
    if Uncovered(t) {
      UncoveredMatchesAtEnd(t);
      SecondPassText(t);
    } else {
      forall j | 0 <= j < |cut| ensures !SsnAt(cut, j) {
        CutMatches(t, j);
      }
      NothingFrom(cut, 0);
    }
  }

  /** The only match in the cut text is at its end. */
  ghost predicate MatchesAtEnd(t: Text)
    requires |t| > MAX_LENGTH
  {
    forall j :: 0 <= j < MAX_LENGTH ==> (SsnAt(Cut(t), j) <==> j == KEPT - 11)
  }

  lemma UncoveredMatchesAtEnd(t: Text)
    requires |t| > MAX_LENGTH && SsnFree(t) && Uncovered(t)
    ensures MatchesAtEnd(t)
  {
    forall j | 0 <= j < MAX_LENGTH ensures SsnAt(Cut(t), j) <==> j == KEPT - 11 {
      CutMatches(t, j);
    }
  }

  /** What a second pass makes of an uncovered number. */
  lemma SecondPassText(t: Text)
    requires |t| > MAX_LENGTH && Uncovered(t)
    requires MatchesAtEnd(t)
    ensures Shorten(Ssn(Cut(t))) == t[..KEPT - 11] + (PII_REDACTED[..11] + SUFFIX)
    ensures Shorten(Ssn(Cut(t))) != Cut(t)
  {
    var cut, j := Cut(t), KEPT - 11;
    FirstReplaced(cut, 0, j);
    NothingFrom(cut, KEPT);
    assert cut[KEPT..] == SUFFIX && cut[0..j] == t[..j];
    var twice := Ssn(cut);
    assert twice == t[..j] + PII_REDACTED + SUFFIX;
    ShortenLonger(t[..j], PII_REDACTED);
    assert Shorten(twice)[j] == PII_REDACTED[0];
    assert cut[j] == t[j];
  }

  lemma ShortenLonger(head: Text, replacement: Text)
    requires |head| == KEPT - 11 && |replacement| == 14
    ensures Shorten(head + replacement + SUFFIX) == head + (replacement[..11] + SUFFIX)
  {
    var t := head + replacement + SUFFIX;
    assert t[..KEPT] == head + replacement[..11];
  }

  /** For a text without lone surrogates in which the pattern finds nothing, the row of the pipeline verifies
      exactly when the cut, if there is one, neither halves a surrogate pair nor uncovers a number. */
  lemma SsnRowStableIff(p: Primitives, raw: Text)
    requires p.redact == RedactWith(Ssn) && SoundStore(p) && WellFormed(raw) && SsnFree(raw)
    ensures StableSummary(p, p.redact(raw)) <==>
      |raw| > MAX_LENGTH ==> !IsHigh(raw[KEPT - 1]) && !Uncovered(raw)
  {
    NothingFrom(raw, 0);
    assert raw[0..] == raw;
    PreRedactedStableIff(p, Ssn, raw);
    if |raw| > MAX_LENGTH {
      CutWellFormedIff(raw);
      if WellFormed(Cut(raw)) {
        StoredSecondPass(p, raw);
      } else {
        HalvedPairIsUnstable(p, Ssn, raw);
      }
    }
  }

  /** Storage cannot repair a second pass that changed the text. */
  lemma StoredSecondPass(p: Primitives, raw: Text)
    requires SoundStore(p) && |raw| > MAX_LENGTH && SsnFree(raw) && WellFormed(raw) && WellFormed(Cut(raw))
    ensures p.store(Shorten(Ssn(Cut(raw)))) == Cut(raw) <==> !Uncovered(raw)
  {
    SecondPassIff(raw);
    if Uncovered(raw) {
      SecondPassWellFormed(raw);
    }
  }

  lemma SecondPassWellFormed(t: Text)
    requires |t| > MAX_LENGTH && SsnFree(t) && WellFormed(t) && Uncovered(t)
    ensures WellFormed(Shorten(Ssn(Cut(t))))
  {
    UncoveredMatchesAtEnd(t);
    SecondPassText(t);
    HeadWellFormed(t, KEPT - 11);
    PlainReplacement();
    AppendPlain(t[..KEPT - 11], PII_REDACTED[..11] + SUFFIX);
  }

  lemma PlainReplacement()
    ensures NoSurrogates(PII_REDACTED[..11] + SUFFIX)
  { }

  lemma HeadWellFormed(t: Text, n: nat)
    requires WellFormed(t) && 0 < n < |t| && !IsLow(t[n])
    ensures WellFormed(t[..n])
  {
    PrefixWellFormedIff(t, n);
  }

  // ---- Parameters that break the row.

  /** A parameter: its key, and its value as a string or as JSON text. */
  datatype Param = Param(key: Text, value: Text)

  /** "key=value", the value cut after 100 units. */
  function Part(p: Param): Text {
    p.key + [61] + if |p.value| > 100 then p.value[..100] + [46, 46, 46] else p.value
  }

  /** `summarizeParams`: the parts with a comma and a blank between them. */
  function SummarizeParams(params: seq<Param>): Text {
    if params == [] then []
    else if |params| == 1 then Part(params[0])
    else Part(params[0]) + ([44, 32] + SummarizeParams(params[1..]))
  }

  /** "123-45-67890": the last digit protects the number. */
  const PROTECTED: Text := [49, 50, 51, 45, 52, 53, 45, 54, 55, 56, 57, 48]

  /** A text whose only hyphens are those of a protected number that the cut uncovers. */
  lemma ProtectedIsUncovered(before: Text, after: Text)
    requires |before| == KEPT - 11 && !IsWord(before[KEPT - 12]) && HYPHEN !in before
    requires |after| > MAX_LENGTH - KEPT - 1 && HYPHEN !in after
    ensures var t := before + PROTECTED + after;
      |t| > MAX_LENGTH && SsnFree(t) && Uncovered(t)
  {
    var t := before + PROTECTED + after;
    assert forall k :: 0 <= k < KEPT - 11 ==> t[k] == before[k];
    assert forall k :: 0 <= k < 12 ==> t[KEPT - 11 + k] == PROTECTED[k];
    assert forall k :: KEPT + 1 <= k < |t| ==> t[k] == after[k - KEPT - 1];
    forall j | 0 <= j < |t| ensures !SsnAt(t, j) { }
  }

  function Blanks(n: nat): (r: Text)
    ensures |r| == n && forall i :: 0 <= i < n ==> r[i] == SPACE
  {
    seq(n, _ => SPACE)
  }

  /** Five string parameters of 100 units each. */
  function ProtectedParams(): seq<Param> {
    [Param([97], Blanks(100)), Param([98], Blanks(100)), Param([99], Blanks(100)), Param([100], Blanks(100)),
     Param([101], Blanks(56) + PROTECTED + Blanks(32))]
  }

  /** "k=", the blanks, a comma and a blank. */
  function BlankPart(key: CodeUnit): (r: Text)
    ensures |r| == 104 && (key != HYPHEN ==> HYPHEN !in r)
    ensures !IsHigh(key) && !IsLow(key) ==> NoSurrogates(r)
  {
    [key, 61] + Blanks(100) + [44, 32]
  }

  lemma SummaryStep(key: CodeUnit, rest: seq<Param>)
    requires rest != []
    ensures SummarizeParams([Param([key], Blanks(100))] + rest) == BlankPart(key) + SummarizeParams(rest)
  {
    var p := Param([key], Blanks(100));
    assert ([p] + rest)[1..] == rest;
    assert Part(p) + ([44, 32] + SummarizeParams(rest)) == BlankPart(key) + SummarizeParams(rest);
  }

  function BlankParts(): (r: Text)
    ensures |r| == 416 && HYPHEN !in r && NoSurrogates(r)
  {
    BlankPart(97) + (BlankPart(98) + (BlankPart(99) + BlankPart(100)))
  }

  lemma Reassociate(a: Text, b: Text, c: Text, d: Text, e: Text)
    ensures a + (b + (c + (d + e))) == a + (b + (c + d)) + e
  { }

  lemma ProtectedSummary() returns (before: Text)
    ensures SummarizeParams(ProtectedParams()) == before + PROTECTED + Blanks(32)
    ensures |before| == KEPT - 11 && before[KEPT - 12] == SPACE && HYPHEN !in before
    ensures NoSurrogates(before)
  {
    var last := Param([101], Blanks(56) + PROTECTED + Blanks(32));
    var a, b, c := Param([97], Blanks(100)), Param([98], Blanks(100)), Param([99], Blanks(100));
    var d := Param([100], Blanks(100));
    assert ProtectedParams() == [a] + ([b] + ([c] + ([d] + [last])));
    SummaryStep(100, [last]);
    SummaryStep(99, [d] + [last]);
    SummaryStep(98, [c] + ([d] + [last]));
    SummaryStep(97, [b] + ([c] + ([d] + [last])));
    Reassociate(BlankPart(97), BlankPart(98), BlankPart(99), BlankPart(100), Part(last));
    before := BlankParts() + [101, 61] + Blanks(56);
    LastPart(BlankParts());
    assert before[KEPT - 12] == Blanks(56)[55];
  }

  lemma LastPart(head: Text)
    ensures head + Part(Param([101], Blanks(56) + PROTECTED + Blanks(32)))
      == head + [101, 61] + Blanks(56) + PROTECTED + Blanks(32)
  {
    assert |Blanks(56) + PROTECTED + Blanks(32)| == 100;
  }

  lemma PlainIsWellFormed(t: Text)
    requires NoSurrogates(t)
    ensures WellFormed(t)
  { }

  lemma ProtectedParamsUncovered()
    ensures var raw := SummarizeParams(ProtectedParams());
      |raw| > MAX_LENGTH && WellFormed(raw) && SsnFree(raw) && Uncovered(raw)
  {
    var before := ProtectedSummary();
    ProtectedIsUncovered(before, Blanks(32));
    PlainIsWellFormed(before);
    PlainProtected();
    AppendPlain(before, PROTECTED);
    AppendPlain(before + PROTECTED, Blanks(32));
  }

  lemma PlainProtected()
    ensures NoSurrogates(PROTECTED)
  { }

  /** An uncovered number breaks the row, whatever the other patterns are, if they find nothing in the text
      and in the cut text. */
  lemma UncoveredNumberBreaksRow(p: Primitives, clean: Text -> Text, raw: Text)
    requires SoundStore(p) && p.redact == RedactWith(clean)
    requires |raw| > MAX_LENGTH && WellFormed(raw) && SsnFree(raw) && Uncovered(raw)
    requires clean(raw) == raw && clean(Cut(raw)) == Ssn(Cut(raw))
    ensures !StableSummary(p, p.redact(raw))
  {
    assert IsDigit(raw[KEPT - 1]);
    CutWellFormedIff(raw);
    StoredSecondPass(p, raw);
    PreRedactedStableIff(p, clean, raw);
  }

  /** An honest row that `verifyChain` reports as broken. */
  lemma ProtectedParamsBreakRow(p: Primitives, clean: Text -> Text, raw: Text)
    requires SoundStore(p) && p.redact == RedactWith(clean)
    requires raw == SummarizeParams(ProtectedParams())
    requires |raw| > MAX_LENGTH ==> clean(raw) == raw && clean(Cut(raw)) == Ssn(Cut(raw))
    ensures !StableSummary(p, p.redact(raw))
  {
    ProtectedParamsUncovered();
    UncoveredNumberBreaksRow(p, clean, raw);
  }
}
