/** Announcing a confirmation request: its parameters are written as JSON text, redacted as a whole, and
    parsed again. Redaction can eat the end of the text, and then the parse throws. */
module Announcement {
  import opened JsText
  import J = JsonSyntax

  const LBRACE: CodeUnit := 123
  const RBRACE: CodeUnit := 125
  const RBRACKET: CodeUnit := 93

  /** "[REDACTED]" */
  const REDACTED: Text := [91, 82, 69, 68, 65, 67, 84, 69, 68, 93]

  /** `parses` says that `JSON.parse` does not throw. */
  datatype Announcer = Announcer(redact: Text -> Text, parses: Text -> bool)

  predicate Announces(a: Announcer, parameters: Text) {
    a.parses(a.redact(parameters))
  }

  /** An object's text ends with its closing brace, and possibly blanks. */
  ghost predicate ClosesObjects(parses: Text -> bool) {
    forall t: Text :: t != [] && t[0] == LBRACE && parses(t) ==> Closed(t)
  }

  predicate Closed(t: Text) {
    var core := TrimEnd(t);
    core != [] && core[|core| - 1] == RBRACE
  }

  // ---- The pattern for database connection strings.

  /** "postgres://", "mysql://", "mongodb://" and "mongodb+srv://" */
  const SCHEMES: seq<Text> := [
    [112, 111, 115, 116, 103, 114, 101, 115, 58, 47, 47],
    [109, 121, 115, 113, 108, 58, 47, 47],
    [109, 111, 110, 103, 111, 100, 98, 58, 47, 47],
    [109, 111, 110, 103, 111, 100, 98, 43, 115, 114, 118, 58, 47, 47]]

  /** A scheme and at least one unit that is not blank. */
  predicate StartsWithConnection(t: Text) {
    exists k :: 0 <= k < |SCHEMES| && SCHEMES[k] <= t && |t| > |SCHEMES[k]| && !IsSpace(t[|SCHEMES[k]|])
  }

  /** The number of units before the first blank one. */
  function RunLength(t: Text): (n: nat)
    ensures n <= |t|
    ensures forall i :: 0 <= i < n ==> !IsSpace(t[i])
    ensures n < |t| ==> IsSpace(t[n])
  {
    if t == [] || IsSpace(t[0]) then 0 else 1 + RunLength(t[1..])
  }

  /** Replaces every connection string: the scheme and all that follows it up to a blank. */
  function RedactConnections(t: Text): Text {
    RedactRuns(StartsWithConnection, t)
  }

  function RedactRuns(starts: Text -> bool, t: Text): Text
    decreases |t|
  {
    if t == [] then []
    else if starts(t) && RunLength(t) > 0 then REDACTED + RedactRuns(starts, t[RunLength(t)..])
    else [t[0]] + RedactRuns(starts, t[1..])
  }

  /** A connection string runs on to the end of the text. */
  ghost predicate RunsToEnd(t: Text) {
    exists i :: 0 <= i < |t| && ConnectionToEnd(t, i)
  }

  ghost predicate ConnectionToEnd(t: Text, i: nat)
    requires i <= |t|
  {
    StartsWithConnection(t[i..]) && forall j :: i <= j < |t| ==> !IsSpace(t[j])
  }

  lemma SchemesStartInk(t: Text)
    requires StartsWithConnection(t)
    ensures t != [] && !IsSpace(t[0]) && t[0] != LBRACE && RunLength(t) > 0
  {
    var k :| 0 <= k < |SCHEMES| && SCHEMES[k] <= t && |t| > |SCHEMES[k]| && !IsSpace(t[|SCHEMES[k]|]);
    assert k == 0 || k == 1 || k == 2 || k == 3;
    assert t[0] == SCHEMES[k][0];
  }

  lemma RunsToEndTail(t: Text, n: nat)
    requires n <= |t| && RunsToEnd(t[n..])
    ensures RunsToEnd(t)
  {
    var i :| 0 <= i < |t[n..]| && ConnectionToEnd(t[n..], i);
    assert t[n..][i..] == t[n + i..];
    forall j | n + i <= j < |t| ensures !IsSpace(t[j]) {
      assert t[n..][j - n] == t[j];
    }
    assert ConnectionToEnd(t, n + i);
  }

  /** The last unit is replaced exactly when a connection string runs on to it. */
  lemma {:induction false} EndReplacedIff(t: Text)
    requires t != []
    ensures RedactConnections(t) != []
    ensures RunsToEnd(t) ==> RedactConnections(t)[|RedactConnections(t)| - 1] == RBRACKET
    ensures !RunsToEnd(t) ==> RedactConnections(t)[|RedactConnections(t)| - 1] == t[|t| - 1]
    decreases |t|
  {
    if StartsWithConnection(t) {
      SchemesStartInk(t);
      var n := RunLength(t);
      if n == |t| {
        assert t[0..] == t && ConnectionToEnd(t, 0);
        assert t[n..] == [] && RedactConnections(t) == REDACTED + RedactRuns(StartsWithConnection, []);
      } else {
        EndReplacedIff(t[n..]);
        AfterRun(t, n);
        LastOf(REDACTED, RedactConnections(t[n..]));
      }
    } else if |t| > 1 {
      EndReplacedIff(t[1..]);
      AfterUnit(t);
      LastOf([t[0]], RedactConnections(t[1..]));
    } else {
      assert t[0..] == t;
      assert t[1..] == [] && RedactConnections(t) == [t[0]] + RedactRuns(StartsWithConnection, []);
    }
  }

  lemma LastOf(x: Text, y: Text)
    requires y != []
    ensures x + y != [] && (x + y)[|x + y| - 1] == y[|y| - 1]
  { }

  lemma AfterRun(t: Text, n: nat)
    requires n < |t| && IsSpace(t[n])
    ensures RunsToEnd(t) <==> RunsToEnd(t[n..])
  {
    if RunsToEnd(t) {
      var i :| 0 <= i < |t| && ConnectionToEnd(t, i);
      assert i > n;
      assert t[n..][i - n..] == t[i..];
      assert ConnectionToEnd(t[n..], i - n);
    }
    if RunsToEnd(t[n..]) { RunsToEndTail(t, n); }
  }

  lemma AfterUnit(t: Text)
    requires |t| > 1 && !StartsWithConnection(t)
    ensures RunsToEnd(t) <==> RunsToEnd(t[1..])
  {
    if RunsToEnd(t) {
      var i :| 0 <= i < |t| && ConnectionToEnd(t, i);
      assert t[0..] == t;
      assert t[1..][i - 1..] == t[i..];
      assert ConnectionToEnd(t[1..], i - 1);
    }
    if RunsToEnd(t[1..]) { RunsToEndTail(t, 1); }
  }

  lemma {:induction false} NothingReplaced(t: Text)
    requires forall i :: 0 <= i <= |t| ==> !StartsWithConnection(t[i..])
    ensures RedactConnections(t) == t
  {
    if t != [] {
      assert t[0..] == t;
      forall i | 0 <= i <= |t[1..]| ensures !StartsWithConnection(t[1..][i..]) {
        assert t[1..][i..] == t[i + 1..];
      }
      NothingReplaced(t[1..]);
    }
  }

  /** Redacting the text of an object leaves it closed exactly when no connection string runs on to its end. */
  lemma ClosedIffConnectionEnds(t: Text)
    requires |t| >= 2 && t[0] == LBRACE && t[|t| - 1] == RBRACE
    ensures Closed(RedactConnections(t)) <==> !RunsToEnd(t)
    ensures RedactConnections(t) != [] && RedactConnections(t)[0] == LBRACE
  {
    var redacted := RedactConnections(t);
    EndReplacedIff(t);
    assert redacted[|redacted| - 1] == (if RunsToEnd(t) then RBRACKET else RBRACE);
    InkAtEnd(redacted);
    FirstKept(t);
  }

  lemma FirstKept(t: Text)
    requires t != [] && t[0] == LBRACE
    ensures RedactConnections(t) != [] && RedactConnections(t)[0] == LBRACE
  {
    if StartsWithConnection(t) {
      SchemesStartInk(t);
    }
  }

  lemma InkAtEnd(t: Text)
    requires t != [] && !IsSpace(t[|t| - 1])
    ensures Closed(t) <==> t[|t| - 1] == RBRACE
  { }

  /** Where only connection strings are redacted, announcing throws whenever one runs on to the end of the
      text, and does not throw when there is none. */
  lemma ConnectionStringsBreakAnnouncing(a: Announcer, t: Text)
    requires |t| >= 2 && t[0] == LBRACE && t[|t| - 1] == RBRACE && a.parses(t)
    requires ClosesObjects(a.parses) && a.redact(t) == RedactConnections(t)
    ensures RunsToEnd(t) ==> !Announces(a, t)
    ensures (forall i :: 0 <= i <= |t| ==> !StartsWithConnection(t[i..])) ==> Announces(a, t)
  {
    ClosedIffConnectionEnds(t);
    if forall i :: 0 <= i <= |t| ==> !StartsWithConnection(t[i..]) {
      NothingReplaced(t);
    }
  }

  /** {"command":"psql  */
  const PSQL: Text := [123, 34, 99, 111, 109, 109, 97, 110, 100, 34, 58, 34, 112, 115, 113, 108, 32]

  /** u:p@h/db"} */
  const LOGIN: Text := [117, 58, 112, 64, 104, 47, 100, 98, 34, 125]

  /** {"command":"psql postgres://u:p@h/db"} */
  const PSQL_COMMAND: Text := PSQL + (SCHEMES[0] + LOGIN)

  lemma SchemeIsInk(k: nat)
    requires k < |SCHEMES|
    ensures SCHEMES[k] != [] && forall j :: 0 <= j < |SCHEMES[k]| ==> !IsSpace(SCHEMES[k][j])
  {
    assert k == 0 || k == 1 || k == 2 || k == 3;
  }

  /** A connection string that ends the last string of the parameters runs on to their end. */
  lemma ConnectionAtEnd(before: Text, k: nat, rest: Text)
    requires k < |SCHEMES| && rest != [] && forall j :: 0 <= j < |rest| ==> !IsSpace(rest[j])
    ensures RunsToEnd(before + (SCHEMES[k] + rest))
  {
    var scheme := SCHEMES[k];
    var url := scheme + rest;
    var t := before + url;
    SchemeIsInk(k);
    assert t[|before|..] == url;
    assert scheme <= url && url[|scheme|] == rest[0];
    assert StartsWithConnection(url);
    forall j | |before| <= j < |t| ensures !IsSpace(t[j]) {
      if j < |before| + |scheme| {
        assert t[j] == scheme[j - |before|];
      } else {
        assert t[j] == rest[j - |before| - |scheme|];
      }
    }
    assert ConnectionToEnd(t, |before|);
  }

  lemma PsqlCommandBreaksAnnouncing(a: Announcer)
    requires a.parses(PSQL_COMMAND) && a.redact(PSQL_COMMAND) == RedactConnections(PSQL_COMMAND)
    requires ClosesObjects(a.parses)
    ensures !Announces(a, PSQL_COMMAND)
  {
    PsqlParts();
    LastStringBreaksAnnouncing(a, PSQL, 0, LOGIN);
  }

  lemma PsqlParts()
    ensures PSQL != [] && PSQL[0] == LBRACE
    ensures LOGIN != [] && LOGIN[|LOGIN| - 1] == RBRACE && forall j :: 0 <= j < |LOGIN| ==> !IsSpace(LOGIN[j])
  { }

  /** Parameters whose last string ends in a connection string cannot be announced. */
  lemma LastStringBreaksAnnouncing(a: Announcer, before: Text, k: nat, rest: Text)
    requires before != [] && before[0] == LBRACE && k < |SCHEMES|
    requires rest != [] && rest[|rest| - 1] == RBRACE && forall j :: 0 <= j < |rest| ==> !IsSpace(rest[j])
    requires ClosesObjects(a.parses) && a.parses(before + (SCHEMES[k] + rest))
    requires a.redact(before + (SCHEMES[k] + rest)) == RedactConnections(before + (SCHEMES[k] + rest))
    ensures !Announces(a, before + (SCHEMES[k] + rest))
  {
    var t := before + (SCHEMES[k] + rest);
    assert t[0] == before[0] && t[|t| - 1] == rest[|rest| - 1];
    ConnectionAtEnd(before, k, rest);
    ConnectionStringsBreakAnnouncing(a, t);
  }

  /** An announcer that redacts nothing else and checks only the closing brace meets every hypothesis above. */
  lemma PlainAnnouncerFails()
    ensures var a := Announcer(RedactConnections, Closed);
      ClosesObjects(a.parses) && a.parses(PSQL_COMMAND) && !Announces(a, PSQL_COMMAND)
  {
    var a := Announcer(RedactConnections, Closed);
    PsqlParts();
    LastOf(PSQL, SCHEMES[0] + LOGIN);
    LastOf(SCHEMES[0], LOGIN);
    InkAtEnd(PSQL_COMMAND);
    PsqlCommandBreaksAnnouncing(a);
  }

  // ---- Exactly which parameters can be announced.

  /** Some run is replaced. */
  predicate Replaces(starts: Text -> bool, t: Text)
    decreases |t|
  {
    t != [] && ((starts(t) && RunLength(t) > 0) || Replaces(starts, t[1..]))
  }

  lemma {:induction false} KeptIfNothingReplaced(starts: Text -> bool, t: Text)
    requires !Replaces(starts, t)
    ensures RedactRuns(starts, t) == t
    decreases |t|
  {
    if t != [] {
      KeptIfNothingReplaced(starts, t[1..]);
      assert t == [t[0]] + t[1..];
    }
  }

  /** The last run that is replaced: the redacted text before it, and where it ends. */
  function LastRun(starts: Text -> bool, t: Text): (r: (Text, nat))
    requires Replaces(starts, t)
    ensures r.1 <= |t| && (r.1 < |t| ==> IsSpace(t[r.1]))
    decreases |t|
  {
    if starts(t) && RunLength(t) > 0 then
      var n := RunLength(t);
      if Replaces(starts, t[n..]) then
        var (before, end) := LastRun(starts, t[n..]);
        (REDACTED + before, n + end)
      else ([], n)
    else
      var (before, end) := LastRun(starts, t[1..]);
      ([t[0]] + before, 1 + end)
  }

  lemma Shift(t: Text, n: nat, end: nat)
    requires n <= |t| && end <= |t| - n
    ensures t[n..][end..] == t[n + end..]
  { }

  /** Redaction replaces the last run and keeps what follows it. */
  lemma {:induction false} LastRunSplits(starts: Text -> bool, t: Text)
    requires Replaces(starts, t)
    ensures RedactRuns(starts, t) == LastRun(starts, t).0 + (REDACTED + t[LastRun(starts, t).1..])
    decreases |t|
  {
    if starts(t) && RunLength(t) > 0 {
      var n := RunLength(t);
      if Replaces(starts, t[n..]) {
        var (before, end) := LastRun(starts, t[n..]);
        LastRunSplits(starts, t[n..]);
        Shift(t, n, end);
        Associate(REDACTED, before, REDACTED + t[n + end..]);
      } else {
        KeptIfNothingReplaced(starts, t[n..]);
        Associate([], REDACTED, t[n..]);
      }
    } else {
      var (before, end) := LastRun(starts, t[1..]);
      LastRunSplits(starts, t[1..]);
      Shift(t, 1, end);
      Associate([t[0]], before, REDACTED + t[1 + end..]);
    }
  }

  lemma Associate(a: Text, b: Text, c: Text)
    ensures a + (b + c) == a + b + c
    ensures [] + (b + c) == b + c
  { }

  /** Blanks stand only inside strings, as in every text that `JSON.stringify` writes. */
  ghost predicate Compact(scalar: Text -> bool, t: Text) {
    forall k :: 0 <= k < |t| && IsSpace(t[k]) ==>
      J.Reach(scalar, J.START, t[..k]).Some? && J.Reach(scalar, J.START, t[..k]).value.place.InString?
  }

  /** "EDACTED" */
  const LETTERS: Text := [69, 68, 65, 67, 84, 69, 68]

  /** "REDACTED", the word between the brackets, is neither a literal nor a number. */
  predicate NoScalar(scalar: Text -> bool) {
    !scalar([82] + LETTERS)
  }

  lemma ReachUnit(scalar: Text -> bool, c: J.Config, u: CodeUnit, rest: Text)
    ensures J.Reach(scalar, c, [u] + rest)
      == if J.Step(scalar, c, u).None? then None else J.Reach(scalar, J.Step(scalar, c, u).value, rest)
  {
    assert ([u] + rest)[1..] == rest;
  }

  /** The letters of the word go into a scalar one by one. */
  lemma {:induction false} LettersMakeScalar(scalar: Text -> bool, c: J.Config, letters: Text)
    requires c.place.InScalar? && forall i :: 0 <= i < |letters| ==> 65 <= letters[i] <= 90
    ensures J.Reach(scalar, c, letters) == Some(J.Config(J.InScalar(c.place.text + letters), c.stack))
    decreases |letters|
  {
    if letters == [] {
      assert c.place.text + letters == c.place.text;
    } else {
      var next := J.Step(scalar, c, letters[0]).value;
      LettersMakeScalar(scalar, next, letters[1..]);
      assert c.place.text + [letters[0]] + letters[1..] == c.place.text + letters;
    }
  }

  lemma WordRefused(scalar: Text -> bool, c: J.Config)
    requires NoScalar(scalar) && c.place == J.InScalar([82])
    ensures J.Reach(scalar, c, LETTERS + [93]) == None
  {
    LettersMakeScalar(scalar, c, LETTERS);
    J.ReachAppend(scalar, c, LETTERS, [93]);
    assert J.Step(scalar, J.Config(J.InScalar([82] + LETTERS), c.stack), 93) == None;
  }

  /** Only inside a string, and not inside an escape there, can the replacement be read. */
  lemma ReplacementOnlyInString(scalar: Text -> bool, c: J.Config)
    requires NoScalar(scalar) && J.Reach(scalar, c, REDACTED).Some?
    ensures c.place.InString? && c.place.escape == J.Plain
  {
    assert REDACTED == [91] + ([82] + (LETTERS + [93]));
    ReachUnit(scalar, c, 91, [82] + (LETTERS + [93]));
    BracketRead(scalar, c);
    if c.place.BeforeValue? {
      ArrayRefused(scalar, J.Push(c, J.InArray, J.BeforeValue(true)));
    }
  }

  lemma BracketRead(scalar: Text -> bool, c: J.Config)
    ensures J.Step(scalar, c, 91).Some? ==>
      (c.place.InString? && c.place.escape == J.Plain)
      || (c.place.BeforeValue? && J.Step(scalar, c, 91) == Some(J.Push(c, J.InArray, J.BeforeValue(true))))
  { }

  lemma ArrayRefused(scalar: Text -> bool, c: J.Config)
    requires NoScalar(scalar) && c.place == J.BeforeValue(true)
    ensures J.Reach(scalar, c, [82] + (LETTERS + [93])) == None
  {
    ReachUnit(scalar, c, 82, LETTERS + [93]);
    WordRefused(scalar, J.Config(J.InScalar([82]), c.stack));
  }

  lemma ReplacementIsInk()
    ensures forall i :: 0 <= i < |REDACTED| ==> J.IsInk(REDACTED[i])
  { }

  /** Where a connection string stops at a blank, the original text stands inside a string. */
  lemma StopsInString(scalar: Text -> bool, t: Text, j: nat)
    requires J.Accepts(scalar, t) && Compact(scalar, t) && j < |t| && IsSpace(t[j])
    ensures var c := J.Reach(scalar, J.START, t[..j]);
      c.Some? && c.value.place.InString? && c.value.place.escape == J.Plain && J.AcceptsFrom(scalar, c.value, t[j..])
  {
    assert t == t[..j] + t[j..] && t[j..] == [t[j]] + t[j + 1..];
    J.ReachAppend(scalar, J.START, t[..j], t[j..]);
    ReachUnit(scalar, J.Reach(scalar, J.START, t[..j]).value, t[j], t[j + 1..]);
  }

  /** What the parser makes of the replacement and of the rest of the text, from where the redacted text
      before the last connection string has led it. */
  lemma RestAcceptedIff(scalar: Text -> bool, before: Text, t: Text, j: nat)
    requires J.Accepts(scalar, t) && Compact(scalar, t) && NoScalar(scalar)
    requires j <= |t| && (j < |t| ==> IsSpace(t[j]))
    ensures J.Accepts(scalar, before + (REDACTED + t[j..])) <==>
      j < |t| && J.Reach(scalar, J.START, before) == J.Reach(scalar, J.START, t[..j])
  {
    var e := J.Reach(scalar, J.START, before);
    J.ReachAppend(scalar, J.START, before, REDACTED + t[j..]);
    if j < |t| { StopsInString(scalar, t, j); }
    if e.Some? {
      J.ReachAppend(scalar, e.value, REDACTED, t[j..]);
      if J.Reach(scalar, e.value, REDACTED).Some? {
        ReplacementOnlyInString(scalar, e.value);
        RestFromString(scalar, e.value, t, j);
      } else if j < |t| && e == J.Reach(scalar, J.START, t[..j]) {
        ReplacementIsInk();
        J.InkStaysInString(scalar, e.value, REDACTED);
      }
    }
  }

  lemma RestFromString(scalar: Text -> bool, e: J.Config, t: Text, j: nat)
    requires J.Accepts(scalar, t) && Compact(scalar, t)
    requires j <= |t| && (j < |t| ==> IsSpace(t[j]))
    requires e.place.InString? && e.place.escape == J.Plain
    ensures J.Reach(scalar, e, REDACTED) == Some(e)
    ensures J.AcceptsFrom(scalar, e, t[j..]) <==> j < |t| && Some(e) == J.Reach(scalar, J.START, t[..j])
  {
    ReplacementIsInk();
    J.InkStaysInString(scalar, e, REDACTED);
    if j < |t| {
      StopsInString(scalar, t, j);
      if J.AcceptsFrom(scalar, e, t[j..]) {
        J.RestTellsConfig(scalar, e, J.Reach(scalar, J.START, t[..j]).value, t[j..]);
      }
    } else {
      assert t[j..] == [];
    }
  }

  /** The text before `j` and the redacted text `before` lead the parser to the same place. */
  predicate ReadsAlike(scalar: Text -> bool, before: Text, t: Text, j: nat) {
    j < |t| && J.Reach(scalar, J.START, before) == J.Reach(scalar, J.START, t[..j])
  }

  /** Where only connection strings are redacted, parameters can be announced exactly when there is none in
      them, or when the last one stops before their end and the text read there after redaction stands in the
      same containers, and in a string of the same role, as the original. */
  lemma AnnouncesIff(a: Announcer, scalar: Text -> bool, t: Text)
    requires a.redact(t) == RedactConnections(t) && forall s :: a.parses(s) <==> J.Accepts(scalar, s)
    requires a.parses(t) && Compact(scalar, t) && NoScalar(scalar)
    ensures Announces(a, t) <==> AnnouncesAsRead(scalar, StartsWithConnection, t)
  {
    RedactedAcceptedIff(scalar, StartsWithConnection, t);
  }

  predicate AnnouncesAsRead(scalar: Text -> bool, starts: Text -> bool, t: Text) {
    !Replaces(starts, t) || ReadsAlike(scalar, LastRun(starts, t).0, t, LastRun(starts, t).1)
  }

  lemma RedactedAcceptedIff(scalar: Text -> bool, starts: Text -> bool, t: Text)
    requires J.Accepts(scalar, t) && Compact(scalar, t) && NoScalar(scalar)
    ensures J.Accepts(scalar, RedactRuns(starts, t)) <==> AnnouncesAsRead(scalar, starts, t)
  {
    if Replaces(starts, t) {
      LastRunSplits(starts, t);
      RestAcceptedIff(scalar, LastRun(starts, t).0, t, LastRun(starts, t).1);
    } else {
      KeptIfNothingReplaced(starts, t);
    }
  }
}
