/** The hash-chained audit log: `log` appends a row that commits to the one before it,
    `verifyChain` walks the rows in order. */
module AuditChain {
  import opened JsText
  import opened JsonText
  import Utf8

  /** The columns that the entry hash covers. */
  datatype Entry = Entry(
    id: Text, timestamp: Text, manifestId: Text, sessionId: Text, agentId: Text,
    tool: Text, category: Text, decision: Text, summary: Text, result: Text)

  /** The columns that no hash covers. */
  datatype Extra = Extra(durationMs: Option<real>, source: Option<Text>)

  datatype Row = Row(
    entry: Entry, prevHash: Text, entryHash: Text, signature: Option<Text>, extra: Extra)

  /** SHA-256, the signing primitives, the redactor and what a text column gives back of a text, as
      functions about which only the stated hypotheses are known. `sign` yields `None` when signing
      throws. Hashes and signatures are hexadecimal and come back as they are. */
  datatype Primitives = Primitives(
    sha256: Text -> Text,
    sign: Text -> Option<Text>,
    verify: (Text, Text) -> bool,
    redact: Text -> Text,
    store: Text -> Text)

  ghost predicate SoundHash(p: Primitives) {
    && (forall x, y :: p.sha256(x) == p.sha256(y) ==> x == y)
    && (forall x :: p.sha256(x) != [])
  }

  ghost predicate SoundSigner(p: Primitives) {
    forall h :: p.sign(h).Some? ==> p.sign(h).value != [] && p.verify(h, p.sign(h).value)
  }

  /** A column holds UTF-8: it keeps a text without lone surrogates, and gives back no other. */
  ghost predicate SoundStore(p: Primitives) {
    forall t :: Utf8.WellFormed(p.store(t)) && (Utf8.WellFormed(t) ==> p.store(t) == t)
  }

  function HashedFields(e: Entry, prevHash: Text): seq<Text> {
    [prevHash, e.id, e.timestamp, e.manifestId, e.sessionId, e.agentId,
     e.tool, e.category, e.decision, e.summary, e.result]
  }

  function ComputeEntryHash(p: Primitives, e: Entry, prevHash: Text): Text {
    p.sha256(StringifyStrings(HashedFields(e, prevHash)))
  }

  /** The entry hash determines the previous hash and every hashed column. */
  lemma EntryHashBinds(p: Primitives, e: Entry, prev: Text, f: Entry, prev': Text)
    requires SoundHash(p) && ComputeEntryHash(p, e, prev) == ComputeEntryHash(p, f, prev')
    ensures e == f && prev == prev'
  {
    var a, b := HashedFields(e, prev), HashedFields(f, prev');
    StringifyInjective(a, b);
    assert a[0] == b[0] && a[1] == b[1] && a[2] == b[2] && a[3] == b[3] && a[4] == b[4] && a[5] == b[5];
    assert a[6] == b[6] && a[7] == b[7] && a[8] == b[8] && a[9] == b[9] && a[10] == b[10];
  }

  datatype Options = Options(checkSignatures: bool, strict: bool)

  datatype Verdict = Valid | BrokenAt(id: Text)

  predicate SignatureOk(p: Primitives, row: Row, o: Options) {
    o.checkSignatures ==>
      if row.signature.Some? && row.signature.value != [] then p.verify(row.entryHash, row.signature.value)
      else !o.strict
  }

  predicate RowOk(p: Primitives, row: Row, expectedPrev: Text, o: Options) {
    && row.prevHash == expectedPrev
    && row.entryHash == ComputeEntryHash(p, row.entry, row.prevHash)
    && SignatureOk(p, row, o)
  }

  /** What `verifyChain` answers for the rows left to visit. */
  function VerifyFrom(p: Primitives, rows: seq<Row>, expectedPrev: Text, o: Options): Verdict {
    if rows == [] then Valid
    else if !RowOk(p, rows[0], expectedPrev, o) then BrokenAt(rows[0].entry.id)
    else VerifyFrom(p, rows[1..], rows[0].entryHash, o)
  }

  function Verify(p: Primitives, rows: seq<Row>, o: Options): Verdict {
    VerifyFrom(p, rows, [], o)
  }

  function LastHash(rows: seq<Row>): Text {
    if rows == [] then [] else rows[|rows| - 1].entryHash
  }

  /** Row `k` passes its check when the walk over `rows` starts from the hash `start`. */
  predicate LinkOk(p: Primitives, rows: seq<Row>, start: Text, k: int, o: Options)
    requires 0 <= k < |rows|
  {
    RowOk(p, rows[k], if k == 0 then start else rows[k - 1].entryHash, o)
  }

  ghost predicate RowsOk(p: Primitives, rows: seq<Row>, o: Options) {
    forall k :: 0 <= k < |rows| ==> LinkOk(p, rows, [], k, o)
  }

  /** The position at which verification stops, seen from the whole table: the answer is
      `BrokenAt` the first row that fails its check, and `Valid` when none fails. */
  lemma {:induction false} VerifyFindsFirst(p: Primitives, rows: seq<Row>, prev: Text, o: Options) returns (k: nat)
    ensures k <= |rows|
    ensures forall i :: 0 <= i < k ==> LinkOk(p, rows, prev, i, o)
    ensures k < |rows| ==> !LinkOk(p, rows, prev, k, o)
    ensures VerifyFrom(p, rows, prev, o) == if k < |rows| then BrokenAt(rows[k].entry.id) else Valid
  {
    if rows == [] || !RowOk(p, rows[0], prev, o) {
      k := 0;
    } else {
      var j := VerifyFindsFirst(p, rows[1..], rows[0].entryHash, o);
      k := j + 1;
      forall i | 0 < i <= k && i < |rows|
        ensures LinkOk(p, rows, prev, i, o) == LinkOk(p, rows[1..], rows[0].entryHash, i - 1, o)
      {
        assert rows[i] == rows[1..][i - 1];
      }
    }
  }

  lemma VerifyIffRowsOk(p: Primitives, rows: seq<Row>, o: Options)
    ensures Verify(p, rows, o) == Valid <==> RowsOk(p, rows, o)
  {
    var k := VerifyFindsFirst(p, rows, [], o);
  }

  lemma VerifyPrefix(p: Primitives, rows: seq<Row>, n: nat, o: Options)
    requires n <= |rows| && Verify(p, rows, o) == Valid
    ensures Verify(p, rows[..n], o) == Valid
  {
    VerifyIffRowsOk(p, rows, o);
    VerifyIffRowsOk(p, rows[..n], o);
    forall k | 0 <= k < n ensures LinkOk(p, rows[..n], [], k, o) {
      assert LinkOk(p, rows, [], k, o);
    }
  }

  /** If the first failing row is row `k`, that row's id is the answer. */
  lemma VerifyBrokenAt(p: Primitives, rows: seq<Row>, o: Options, k: nat)
    requires k < |rows|
    requires forall i :: 0 <= i < k ==> LinkOk(p, rows, [], i, o)
    requires !LinkOk(p, rows, [], k, o)
    ensures Verify(p, rows, o) == BrokenAt(rows[k].entry.id)
  {
    var j := VerifyFindsFirst(p, rows, [], o);
  }

  // ---- The head hash pins the whole history.

  predicate SameHashedColumns(x: Row, y: Row) {
    x.entry == y.entry && x.prevHash == y.prevHash && x.entryHash == y.entryHash
  }

  /** Two logs that both verify and end in the same entry hash hold the same entries. */
  lemma {:induction false} ChainBinding(p: Primitives, a: seq<Row>, b: seq<Row>, o: Options, o': Options)
    requires SoundHash(p)
    requires Verify(p, a, o) == Valid && Verify(p, b, o') == Valid
    requires LastHash(a) == LastHash(b)
    ensures |a| == |b|
    ensures forall k :: 0 <= k < |a| ==> SameHashedColumns(a[k], b[k])
    decreases |a|
  {
    VerifyIffRowsOk(p, a, o);
    VerifyIffRowsOk(p, b, o');
    if a != [] { assert LinkOk(p, a, [], |a| - 1, o); }
    if b != [] { assert LinkOk(p, b, [], |b| - 1, o'); }
    if a != [] && b != [] {
      var x, y := a[|a| - 1], b[|b| - 1];
      EntryHashBinds(p, x.entry, x.prevHash, y.entry, y.prevHash);
      var a', b' := a[..|a| - 1], b[..|b| - 1];
      VerifyPrefix(p, a, |a| - 1, o);
      VerifyPrefix(p, b, |b| - 1, o');
      ChainBinding(p, a', b', o, o');
      forall k | 0 <= k < |a| - 1 ensures SameHashedColumns(a[k], b[k]) {
        assert a[k] == a'[k] && b[k] == b'[k];
      }
    }
  }

  /** Hence no edit of a verified log that touches a hashed column, a hash, or the number of
      rows passes verification while the head hash stays what it was. */
  lemma HeadHashDetectsAnyEdit(p: Primitives, rows: seq<Row>, edited: seq<Row>, o: Options)
    requires SoundHash(p) && Verify(p, rows, o) == Valid
    requires LastHash(edited) == LastHash(rows)
    requires |edited| != |rows| || exists k :: 0 <= k < |rows| && !SameHashedColumns(edited[k], rows[k])
    ensures Verify(p, edited, o) != Valid
  {
    if Verify(p, edited, o) == Valid {
      ChainBinding(p, rows, edited, o, o);
      assert false;
    }
  }

  // ---- Local detection.

  ghost predicate DistinctIds(rows: seq<Row>) {
    forall i, j :: 0 <= i < j < |rows| ==> rows[i].entry.id != rows[j].entry.id
  }

  lemma OtherLinksKept(p: Primitives, rows: seq<Row>, rows': seq<Row>, k: nat, forged: Row, o: Options)
    requires k < |rows| && rows' == rows[k := forged]
    ensures forall i :: 0 <= i < |rows| && i != k && i != k + 1 ==>
      LinkOk(p, rows', [], i, o) == LinkOk(p, rows, [], i, o)
  { }

  lemma ForgedHashDiffers(p: Primitives, row: Row, forged: Row, prev: Text, o: Options)
    requires SoundHash(p) && forged.entry != row.entry && RowOk(p, row, prev, o) && RowOk(p, forged, prev, o)
    ensures forged.entryHash != row.entryHash
  {
    if forged.entryHash == row.entryHash {
      EntryHashBinds(p, forged.entry, forged.prevHash, row.entry, row.prevHash);
    }
  }

  /** Changing the hashed columns of row `k` is caught at that row, or, when the forger also
      rewrites the row's own hash consistently, at the row after it. */
  lemma TamperDetected(p: Primitives, rows: seq<Row>, k: nat, forged: Row, o: Options)
    requires SoundHash(p) && Verify(p, rows, o) == Valid
    requires k < |rows| && forged.entry != rows[k].entry
    ensures var answer := Verify(p, rows[k := forged], o);
      if !RowOk(p, forged, rows[k].prevHash, o) then answer == BrokenAt(forged.entry.id)
      else if k + 1 < |rows| then answer == BrokenAt(rows[k + 1].entry.id)
      else answer == Valid
  {
    var rows' := rows[k := forged];
    VerifyIffRowsOk(p, rows, o);
    assert LinkOk(p, rows, [], k, o);
    OtherLinksKept(p, rows, rows', k, forged, o);
    if !RowOk(p, forged, rows[k].prevHash, o) {
      VerifyBrokenAt(p, rows', o, k);
    } else if k + 1 < |rows| {
      ForgedHashDiffers(p, rows[k], forged, if k == 0 then [] else rows[k - 1].entryHash, o);
      assert LinkOk(p, rows, [], k + 1, o);
      assert rows[k + 1].prevHash == rows[k].entryHash != rows'[k].entryHash;
      VerifyBrokenAt(p, rows', o, k + 1);
    } else {
      VerifyIffRowsOk(p, rows', o);
    }
  }

  /** A forged row whose own hash is recomputed passes exactly when it is the last row. */
  lemma RehashedTamperPassesIffLast(p: Primitives, rows: seq<Row>, k: nat, forged: Entry)
    requires SoundHash(p) && Verify(p, rows, Options(false, false)) == Valid
    requires k < |rows| && forged != rows[k].entry
    ensures var row := rows[k].(entry := forged, entryHash := ComputeEntryHash(p, forged, rows[k].prevHash));
      Verify(p, rows[k := row], Options(false, false)) == Valid <==> k == |rows| - 1
  {
    var row := rows[k].(entry := forged, entryHash := ComputeEntryHash(p, forged, rows[k].prevHash));
    TamperDetected(p, rows, k, row, Options(false, false));
  }

  /** In a verified log with distinct ids two neighbouring links never carry the same hash. */
  lemma LinksDiffer(p: Primitives, rows: seq<Row>, k: nat, o: Options)
    requires SoundHash(p) && Verify(p, rows, o) == Valid && DistinctIds(rows) && k < |rows|
    ensures rows[k].entryHash != rows[k].prevHash
  {
    VerifyIffRowsOk(p, rows, o);
    if k > 0 && rows[k].entryHash == rows[k].prevHash {
      assert LinkOk(p, rows, [], k, o) && LinkOk(p, rows, [], k - 1, o);
      EntryHashBinds(p, rows[k].entry, rows[k].prevHash, rows[k - 1].entry, rows[k - 1].prevHash);
      assert false;
    }
  }

  /** Deleting a row is caught at its successor; only the last row can go unnoticed. */
  lemma DeletionDetected(p: Primitives, rows: seq<Row>, k: nat, o: Options)
    requires SoundHash(p) && Verify(p, rows, o) == Valid && DistinctIds(rows) && k < |rows|
    ensures Verify(p, rows[..k] + rows[k + 1..], o)
      == if k + 1 < |rows| then BrokenAt(rows[k + 1].entry.id) else Valid
  {
    var rows' := rows[..k] + rows[k + 1..];
    VerifyIffRowsOk(p, rows, o);
    assert forall i :: 0 <= i < k ==> LinkOk(p, rows', [], i, o) == LinkOk(p, rows, [], i, o);
    assert LinkOk(p, rows, [], k, o);
    if k + 1 < |rows| {
      LinksDiffer(p, rows, k, o);
      assert rows'[k] == rows[k + 1];
      assert LinkOk(p, rows, [], k + 1, o);
      VerifyBrokenAt(p, rows', o, k);
    } else {
      VerifyIffRowsOk(p, rows', o);
    }
  }

  /** The duration and source columns can be rewritten at will. */
  lemma UnhashedColumnsUnprotected(p: Primitives, rows: seq<Row>, k: nat, extra: Extra, o: Options)
    requires k < |rows|
    ensures Verify(p, rows[k := rows[k].(extra := extra)], o) == Verify(p, rows, o)
  {
    var rows' := rows[k := rows[k].(extra := extra)];
    forall n | 0 <= n < |rows| ensures LinkOk(p, rows', [], n, o) == LinkOk(p, rows, [], n, o) { }
    SameLinks(p, rows, rows', o);
  }

  lemma SameLinks(p: Primitives, a: seq<Row>, b: seq<Row>, o: Options)
    requires |a| == |b|
    requires forall n :: 0 <= n < |a| ==> LinkOk(p, b, [], n, o) == LinkOk(p, a, [], n, o)
    requires forall n :: 0 <= n < |a| ==> a[n].entry.id == b[n].entry.id
    ensures Verify(p, b, o) == Verify(p, a, o)
  {
    var i := VerifyFindsFirst(p, a, [], o);
    var j := VerifyFindsFirst(p, b, [], o);
  }

  // ---- Signatures.

  predicate Signed(row: Row) {
    row.signature.Some? && row.signature.value != []
  }

  /** With signature checking a log verifies exactly when it verifies without, every signature that is
      there is a signature of its row's hash, and, when strict, every row has one. */
  lemma SignaturesChecked(p: Primitives, rows: seq<Row>, strict: bool)
    ensures Verify(p, rows, Options(true, strict)) == Valid <==>
      && Verify(p, rows, Options(false, strict)) == Valid
      && (forall k :: 0 <= k < |rows| && Signed(rows[k]) ==> p.verify(rows[k].entryHash, rows[k].signature.value))
      && (strict ==> forall k :: 0 <= k < |rows| ==> Signed(rows[k]))
  {
    var checked, unchecked := Options(true, strict), Options(false, strict);
    VerifyIffRowsOk(p, rows, checked);
    VerifyIffRowsOk(p, rows, unchecked);
    if RowsOk(p, rows, checked) {
      forall k | 0 <= k < |rows|
        ensures LinkOk(p, rows, [], k, unchecked) && (strict ==> Signed(rows[k]))
        ensures Signed(rows[k]) ==> p.verify(rows[k].entryHash, rows[k].signature.value)
      {
        assert LinkOk(p, rows, [], k, checked);
      }
    } else {
      var k :| 0 <= k < |rows| && !LinkOk(p, rows, [], k, checked);
      assert LinkOk(p, rows, [], k, unchecked) ==> !SignatureOk(p, rows[k], checked);
    }
  }

  function Resigned(rows: seq<Row>, k: nat, signature: Option<Text>): seq<Row>
    requires k < |rows|
  {
    rows[k := rows[k].(signature := signature)]
  }

  /** In a verified log with row `k` signed anew, or not at all, that row is the only one that can fail. */
  lemma ResignedAnswer(p: Primitives, rows: seq<Row>, k: nat, signature: Option<Text>, o: Options)
    requires Verify(p, rows, o) == Valid && k < |rows|
    ensures Verify(p, Resigned(rows, k, signature), o)
      == if SignatureOk(p, rows[k].(signature := signature), o) then Valid else BrokenAt(rows[k].entry.id)
  {
    var rows' := Resigned(rows, k, signature);
    VerifyIffRowsOk(p, rows, o);
    assert LinkOk(p, rows, [], k, o);
    forall i | 0 <= i < |rows| && i != k ensures LinkOk(p, rows', [], i, o) {
      assert LinkOk(p, rows, [], i, o);
    }
    if SignatureOk(p, rows'[k], o) {
      VerifyIffRowsOk(p, rows', o);
    } else {
      VerifyBrokenAt(p, rows', o, k);
    }
  }

  /** A signature that does not verify is caught at its row. */
  lemma ForgedSignatureDetected(p: Primitives, rows: seq<Row>, k: nat, signature: Text, strict: bool)
    requires Verify(p, rows, Options(true, strict)) == Valid && k < |rows|
    requires signature != [] && !p.verify(rows[k].entryHash, signature)
    ensures Verify(p, Resigned(rows, k, Some(signature)), Options(true, strict)) == BrokenAt(rows[k].entry.id)
  {
    ResignedAnswer(p, rows, k, Some(signature), Options(true, strict));
  }

  /** A missing or empty signature is caught at its row exactly when strict. */
  lemma RemovedSignatureDetectedIffStrict(p: Primitives, rows: seq<Row>, k: nat, none: Option<Text>, strict: bool)
    requires Verify(p, rows, Options(true, strict)) == Valid && k < |rows|
    requires none == None || none == Some([])
    ensures Verify(p, Resigned(rows, k, none), Options(true, strict))
      == if strict then BrokenAt(rows[k].entry.id) else Valid
  {
    ResignedAnswer(p, rows, k, none, Options(true, strict));
  }

  /** Without signature checking no signature has any say, strict or not. */
  lemma SignaturesUnchecked(p: Primitives, rows: seq<Row>, k: nat, signature: Option<Text>, strict: bool, lax: bool)
    requires k < |rows|
    ensures Verify(p, Resigned(rows, k, signature), Options(false, strict)) == Verify(p, rows, Options(false, lax))
  {
    var rows' := Resigned(rows, k, signature);
    var i := VerifyFindsFirst(p, rows, [], Options(false, lax));
    var j := VerifyFindsFirst(p, rows', [], Options(false, strict));
    forall n | 0 <= n < |rows|
      ensures LinkOk(p, rows', [], n, Options(false, strict)) == LinkOk(p, rows, [], n, Options(false, lax))
    { }
  }

  // ---- Logging, then verifying.

  datatype Submission = Submission(entry: Entry, extra: Extra)

  /** An entry as the table gives it back. */
  function StoreEntry(p: Primitives, e: Entry): Entry {
    Entry(p.store(e.id), p.store(e.timestamp), p.store(e.manifestId), p.store(e.sessionId), p.store(e.agentId),
          p.store(e.tool), p.store(e.category), p.store(e.decision), p.store(e.summary), p.store(e.result))
  }

  /** The row that `log` inserts. The hash is taken before redaction and storage, the summary column is
      redacted. */
  function MakeRow(p: Primitives, log: seq<Row>, s: Submission): Row {
    var prev := LastHash(log);
    var hash := ComputeEntryHash(p, s.entry, prev);
    Row(StoreEntry(p, s.entry.(summary := p.redact(s.entry.summary))), prev, hash, p.sign(hash), s.extra)
  }

  function LogAll(p: Primitives, submissions: seq<Submission>): (log: seq<Row>)
    ensures |log| == |submissions|
  {
    if submissions == [] then []
    else
      var log := LogAll(p, submissions[..|submissions| - 1]);
      log + [MakeRow(p, log, submissions[|submissions| - 1])]
  }

  /** Redaction and storage leave the hashed columns as they were. */
  predicate Stable(p: Primitives, s: Submission) {
    && StoreEntry(p, s.entry).(summary := s.entry.summary) == s.entry
    && StableSummary(p, s.entry.summary)
  }

  predicate StableSummary(p: Primitives, summary: Text) {
    p.store(p.redact(summary)) == summary
  }

  ghost predicate WellFormedBesides(e: Entry) {
    && Utf8.WellFormed(e.id) && Utf8.WellFormed(e.timestamp) && Utf8.WellFormed(e.manifestId)
    && Utf8.WellFormed(e.sessionId) && Utf8.WellFormed(e.agentId) && Utf8.WellFormed(e.tool)
    && Utf8.WellFormed(e.category) && Utf8.WellFormed(e.decision) && Utf8.WellFormed(e.result)
  }

  /** An entry comes back as it was submitted exactly when no column besides the summary holds a lone
      surrogate and the summary survives redaction and storage. */
  lemma StableIff(p: Primitives, s: Submission)
    requires SoundStore(p)
    ensures Stable(p, s) <==> WellFormedBesides(s.entry) && StableSummary(p, s.entry.summary)
    ensures Stable(p, s) ==> Utf8.WellFormed(s.entry.summary)
  { }

  ghost predicate FirstUnstable(p: Primitives, subs: seq<Submission>, k: int)
    requires 0 <= k < |subs|
  {
    !Stable(p, subs[k]) && forall i :: 0 <= i < k ==> Stable(p, subs[i])
  }

  lemma {:induction false} LoggedRow(p: Primitives, subs: seq<Submission>, k: nat)
    requires k < |subs|
    ensures LogAll(p, subs)[k] == MakeRow(p, LogAll(p, subs)[..k], subs[k])
  {
    var n := |subs| - 1;
    var log, row := LogAll(p, subs[..n]), MakeRow(p, LogAll(p, subs[..n]), subs[n]);
    assert LogAll(p, subs) == log + [row];
    if k < n {
      LoggedRow(p, subs[..n], k);
      assert (log + [row])[..k] == log[..k] && (log + [row])[k] == log[k];
    } else {
      assert (log + [row])[..k] == log;
    }
  }

  /** Each row of a log is linked to the one before it, is signed over its own hash, and keeps the columns that no
      hash covers. */
  lemma {:induction false} LoggedLinked(p: Primitives, subs: seq<Submission>, k: nat)
    requires k < |subs|
    ensures var log := LogAll(p, subs);
      && log[k].prevHash == (if k == 0 then [] else log[k - 1].entryHash)
      && log[k].signature == p.sign(log[k].entryHash) && log[k].extra == subs[k].extra
  {
    LoggedRow(p, subs, k);
    assert k > 0 ==> LogAll(p, subs)[..k][k - 1] == LogAll(p, subs)[k - 1];
  }

  lemma LoggedRowOkIffStable(p: Primitives, subs: seq<Submission>, k: nat, o: Options)
    requires SoundHash(p) && SoundSigner(p) && k < |subs|
    requires o.checkSignatures && o.strict ==> forall h :: p.sign(h).Some?
    ensures var log := LogAll(p, subs);
      LinkOk(p, log, [], k, o) <==> Stable(p, subs[k])
  {
    LoggedRow(p, subs, k);
    var log := LogAll(p, subs);
    assert LastHash(log[..k]) == if k == 0 then [] else log[k - 1].entryHash;
    var row := log[k];
    if row.entryHash == ComputeEntryHash(p, row.entry, row.prevHash) {
      EntryHashBinds(p, subs[k].entry, row.prevHash, row.entry, row.prevHash);
    }
  }

  lemma LoggedLinks(p: Primitives, subs: seq<Submission>, o: Options)
    requires SoundHash(p) && SoundSigner(p)
    requires o.checkSignatures && o.strict ==> forall h :: p.sign(h).Some?
    ensures forall k :: 0 <= k < |subs| ==> (LinkOk(p, LogAll(p, subs), [], k, o) <==> Stable(p, subs[k]))
    ensures forall k :: 0 <= k < |subs| ==> LogAll(p, subs)[k].entry.id == p.store(subs[k].entry.id)
  {
    forall k | 0 <= k < |subs|
      ensures LinkOk(p, LogAll(p, subs), [], k, o) <==> Stable(p, subs[k])
    {
      LoggedRowOkIffStable(p, subs, k, o);
    }
    forall k | 0 <= k < |subs|
      ensures LogAll(p, subs)[k].entry.id == p.store(subs[k].entry.id)
    {
      LoggedRow(p, subs, k);
    }
  }

  /** A log written by `log` verifies exactly when redaction and storage left every entry as it was;
      otherwise the first entry that was changed is reported as broken. */
  lemma LogThenVerify(p: Primitives, subs: seq<Submission>, o: Options)
    requires SoundHash(p) && SoundSigner(p)
    requires o.checkSignatures && o.strict ==> forall h :: p.sign(h).Some?
    ensures Verify(p, LogAll(p, subs), o) == Valid <==> forall k :: 0 <= k < |subs| ==> Stable(p, subs[k])
    ensures forall k :: 0 <= k < |subs| && FirstUnstable(p, subs, k)
              ==> Verify(p, LogAll(p, subs), o) == BrokenAt(p.store(subs[k].entry.id))
  {
    LoggedLinks(p, subs, o);
    VerifyByLinks(p, LogAll(p, subs), subs, o);
  }

  lemma VerifyByLinks(p: Primitives, log: seq<Row>, subs: seq<Submission>, o: Options)
    requires |log| == |subs|
    requires forall k :: 0 <= k < |subs| ==> (LinkOk(p, log, [], k, o) <==> Stable(p, subs[k]))
    requires forall k :: 0 <= k < |subs| ==> log[k].entry.id == p.store(subs[k].entry.id)
    ensures Verify(p, log, o) == Valid <==> forall k :: 0 <= k < |subs| ==> Stable(p, subs[k])
    ensures forall k :: 0 <= k < |subs| && FirstUnstable(p, subs, k)
              ==> Verify(p, log, o) == BrokenAt(p.store(subs[k].entry.id))
  {
    VerifyIffRowsOk(p, log, o);
    forall k | 0 <= k < |subs| && FirstUnstable(p, subs, k)
      ensures Verify(p, log, o) == BrokenAt(p.store(subs[k].entry.id))
    {
      VerifyBrokenAt(p, log, o, k);
    }
  }

  /** The execute pipeline submits summaries that it has redacted itself. Such a log verifies exactly when
      redacting each of them a second time, and storing it, changes nothing. */
  lemma PreRedactedLogVerifies(p: Primitives, subs: seq<Submission>, raws: seq<Text>, o: Options)
    requires SoundHash(p) && SoundSigner(p) && SoundStore(p)
    requires o.checkSignatures && o.strict ==> forall h :: p.sign(h).Some?
    requires |raws| == |subs|
    requires forall k :: 0 <= k < |subs| ==>
      WellFormedBesides(subs[k].entry) && subs[k].entry.summary == p.redact(raws[k])
    ensures Verify(p, LogAll(p, subs), o) == Valid <==>
      forall k :: 0 <= k < |subs| ==> StableSummary(p, p.redact(raws[k]))
  {
    LogThenVerify(p, subs, o);
    forall k | 0 <= k < |subs| ensures Stable(p, subs[k]) <==> StableSummary(p, p.redact(raws[k])) {
      StableIff(p, subs[k]);
    }
  }

  // ---- The logger object.

  datatype LogOutcome = Logged | Closed | DuplicateId

  predicate HasId(rows: seq<Row>, id: Text) {
    exists k :: 0 <= k < |rows| && rows[k].entry.id == id
  }

  class AuditLogger {
    const primitives: Primitives
    const signingKey: array<int>
    var rows: seq<Row>
    var isOpen: bool

    constructor (primitives: Primitives, signingKey: array<int>, rows: seq<Row>)
      ensures this.primitives == primitives && this.signingKey == signingKey && this.rows == rows && isOpen
    {
      this.primitives := primitives;
      this.signingKey := signingKey;
      this.rows := rows;
      this.isOpen := true;
    }

    /** Appends one row inside a transaction. The primary key refuses a second row with the
        same id, and a closed logger refuses everything; both leave the table as it was. */
    method Log(s: Submission) returns (outcome: LogOutcome)
      modifies this`rows
      ensures outcome == if !isOpen then Closed
        else if HasId(old(rows), primitives.store(s.entry.id)) then DuplicateId
        else Logged
      ensures rows == if outcome == Logged then old(rows) + [MakeRow(primitives, old(rows), s)] else old(rows)
      ensures old(DistinctIds(rows)) ==> DistinctIds(rows)
    {
      if !isOpen {
        return Closed;
      }
      var redacted := primitives.redact(s.entry.summary);
      var prevHash := if rows == [] then [] else rows[|rows| - 1].entryHash;
      var entryHash := ComputeEntryHash(primitives, s.entry, prevHash);
      var signature := primitives.sign(entryHash);
      var stored := StoreEntry(primitives, s.entry.(summary := redacted));
      if HasId(rows, stored.id) {
        return DuplicateId;
      }
      rows := rows + [Row(stored, prevHash, entryHash, signature, s.extra)];
      outcome := Logged;
    }

    /** The verdict on the whole table, or nothing from a closed logger. */
    method VerifyChain(o: Options) returns (verdict: Option<Verdict>)
      ensures verdict == if isOpen then Some(Verify(primitives, rows, o)) else None
    {
      if !isOpen {
        return None;
      }
      var expectedPrevHash: Text := [];
      for i := 0 to |rows|
        invariant Verify(primitives, rows, o) == VerifyFrom(primitives, rows[i..], expectedPrevHash, o)
      {
        var row := rows[i];
        assert rows[i..][1..] == rows[i + 1..];
        if row.prevHash != expectedPrevHash {
          return Some(BrokenAt(row.entry.id));
        }
        if row.entryHash != ComputeEntryHash(primitives, row.entry, row.prevHash) {
          return Some(BrokenAt(row.entry.id));
        }
        if o.checkSignatures {
          if row.signature.Some? && row.signature.value != [] {
            if !primitives.verify(row.entryHash, row.signature.value) {
              return Some(BrokenAt(row.entry.id));
            }
          } else if o.strict {
            return Some(BrokenAt(row.entry.id));
          }
        }
        expectedPrevHash := row.entryHash;
      }
      verdict := Some(Valid);
    }

    /** Overwrites the signing key in place and lets go of the table. */
    method Close()
      modifies this`isOpen, signingKey
      ensures !isOpen
      ensures forall i :: 0 <= i < signingKey.Length ==> signingKey[i] == 0
    {
      for i := 0 to signingKey.Length
        invariant forall j :: 0 <= j < i ==> signingKey[j] == 0
      {
        signingKey[i] := 0;
      }
      isOpen := false;
    }
  }
}
