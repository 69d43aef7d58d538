/** Classification of a chain in terms of the classifications of its links. */
module BashHomomorphism {
  import opened JsText
  import opened BashSplit
  import opened BashClassify

  /** Appends a text to the last piece. */
  function AttachEnd(pieces: seq<Text>, tail: Text): (r: seq<Text>)
    requires pieces != []
    ensures |r| == |pieces|
  {
    pieces[..|pieces| - 1] + [pieces[|pieces| - 1] + tail]
  }

  lemma AttachEndAttach(x: Text, pieces: seq<Text>, tail: Text)
    requires pieces != []
    ensures Attach(x, AttachEnd(pieces, tail)) == AttachEnd(Attach(x, pieces), tail)
  {
    if |pieces| == 1 {
      assert x + (pieces[0] + tail) == x + pieces[0] + tail;
    }
  }

  lemma AttachEndCons(x: Text, pieces: seq<Text>, tail: Text)
    requires pieces != []
    ensures [x] + AttachEnd(pieces, tail) == AttachEnd([x] + pieces, tail)
  { }

  // ---- Blanks around a text do not matter.

  lemma TrimAround(lead: Text, x: Text, tail: Text)
    requires Blank(lead) && Blank(tail)
    ensures Trim(lead + x + tail) == Trim(x)
  {
    var l, r := TrimShape(x);
    assert lead + x + tail == (lead + l) + Trim(x) + (r + tail);
    TrimPadded(lead + l, Trim(x), r + tail);
  }

  lemma ClassifyAround(core: Text -> Category, lead: Text, x: Text, tail: Text)
    requires Blank(lead) && Blank(tail)
    ensures ClassifySingle(core, lead + x + tail) == ClassifySingle(core, x)
  {
    TrimAround(lead, x, tail);
  }

  lemma {:induction false} WorstStageAppend(core: Text -> Category, p: seq<Text>, q: seq<Text>)
    ensures WorstStage(core, p + q) == MaxCategory(WorstStage(core, p), WorstStage(core, q))
  {
    if p == [] {
      assert p + q == q;
    } else {
      assert (p + q)[1..] == p[1..] + q;
      WorstStageAppend(core, p[1..], q);
      MaxLaws(ClassifySingle(core, p[0]), WorstStage(core, p[1..]), WorstStage(core, q));
    }
  }

  lemma WorstOfOne(core: Text -> Category, x: Text)
    ensures WorstStage(core, [x]) == ClassifySingle(core, x)
  { }

  lemma WorstStageAttach(core: Text -> Category, lead: Text, stages: seq<Text>)
    requires Blank(lead) && stages != []
    ensures WorstStage(core, Attach(lead, stages)) == WorstStage(core, stages)
  {
    ClassifyAround(core, lead, stages[0], []);
    assert lead + stages[0] + [] == lead + stages[0];
  }

  lemma WorstStageAttachEnd(core: Text -> Category, stages: seq<Text>, tail: Text)
    requires Blank(tail) && stages != []
    ensures WorstStage(core, AttachEnd(stages, tail)) == WorstStage(core, stages)
  {
    var n := |stages| - 1;
    ClassifyAround(core, [], stages[n], tail);
    assert [] + stages[n] + tail == stages[n] + tail;
    assert stages == stages[..n] + [stages[n]];
    WorstStageAppend(core, stages[..n], [stages[n]]);
    WorstStageAppend(core, stages[..n], [stages[n] + tail]);
  }

  /** Dropping a blank last stage loses nothing. */
  lemma WorstStageDropBlank(core: Text -> Category, stages: seq<Text>)
    requires stages != []
    ensures WorstStage(core, DropBlankTail(stages)) == WorstStage(core, stages)
  {
    var n := |stages| - 1;
    assert stages == stages[..n] + [stages[n]];
    WorstStageAppend(core, stages[..n], [stages[n]]);
    MaxLaws(WorstStage(core, stages[..n]), Read, Read);
  }

  lemma {:induction false} StagesPrev(s: Text, prev: Option<CodeUnit>, prev': Option<CodeUnit>, q: Quotes)
    requires prev != Some(BAR) && prev' != Some(BAR)
    ensures Stages(s, prev, q) == Stages(s, prev', q)
  { }

  lemma {:induction false} StagesLead(lead: Text, s: Text, prev: Option<CodeUnit>)
    requires Blank(lead) && prev != Some(BAR)
    ensures Stages(lead + s, prev, UNQUOTED) == Attach(lead, Stages(s, prev, UNQUOTED))
  {
    if lead == [] {
      assert lead + s == s;
      assert lead + Stages(s, prev, UNQUOTED)[0] == Stages(s, prev, UNQUOTED)[0];
    } else {
      assert (lead + s)[1..] == lead[1..] + s;
      StagesLead(lead[1..], s, Some(lead[0]));
      StagesPrev(s, prev, Some(lead[0]), UNQUOTED);
      AttachTwice([lead[0]], lead[1..], Stages(s, prev, UNQUOTED));
      assert [lead[0]] + lead[1..] == lead;
    }
  }

  lemma {:induction false} StagesBlank(tail: Text, prev: Option<CodeUnit>, q: Quotes)
    requires Blank(tail)
    ensures Stages(tail, prev, q) == [tail]
  {
    if tail != [] {
      StagesBlank(tail[1..], Some(tail[0]), q);
      assert [tail[0]] + tail[1..] == tail;
    }
  }

  lemma {:induction false} StagesTail(s: Text, tail: Text, prev: Option<CodeUnit>, q: Quotes)
    requires Blank(tail)
    ensures Stages(s + tail, prev, q) == AttachEnd(Stages(s, prev, q), tail)
    decreases |s|
  {
    if s == [] {
      assert s + tail == tail;
      StagesBlank(tail, prev, q);
      assert [] + tail == tail;
    } else {
      var t := s + tail;
      assert t[1..] == s[1..] + tail;
      assert IsPipe(q, prev, t[0], At(t, 1)) == IsPipe(q, prev, s[0], At(s, 1));
      if IsPipe(q, prev, s[0], At(s, 1)) {
        StagesTail(s[1..], tail, Some(s[0]), q);
        AttachEndCons([], Stages(s[1..], Some(s[0]), q), tail);
      } else {
        StagesTail(s[1..], tail, Some(s[0]), Toggle(q, s[0]));
        AttachEndAttach([s[0]], Stages(s[1..], Some(s[0]), Toggle(q, s[0])), tail);
      }
    }
  }

  /** The category of one link of a chain. */
  function LinkCategory(core: Text -> Category, segment: Text): Category {
    WorstStage(core, SplitPipe(segment))
  }

  lemma LinkAround(core: Text -> Category, lead: Text, s: Text, tail: Text)
    requires Blank(lead) && Blank(tail)
    ensures LinkCategory(core, lead + s + tail) == LinkCategory(core, s)
  {
    var stages := Stages(s, None, UNQUOTED);
    StagesLead(lead, s + tail, None);
    StagesTail(s, tail, None, UNQUOTED);
    assert lead + s + tail == lead + (s + tail);
    WorstStageAttach(core, lead, AttachEnd(stages, tail));
    WorstStageAttachEnd(core, stages, tail);
    WorstStageDropBlank(core, stages);
    WorstStageDropBlank(core, Stages(lead + s + tail, None, UNQUOTED));
  }

  lemma BlankLink(core: Text -> Category, s: Text)
    requires Trim(s) == []
    ensures LinkCategory(core, s) == Read
  {
    var l, r := TrimShape(s);
    StagesBlank(s, None, UNQUOTED);
    WorstOfOne(core, s);
    WorstStageDropBlank(core, [s]);
  }

  lemma {:induction false} WorstSegmentAppend(core: Text -> Category, p: seq<Text>, q: seq<Text>)
    ensures WorstSegment(core, p + q) == MaxCategory(WorstSegment(core, p), WorstSegment(core, q))
  {
    if p == [] {
      assert p + q == q;
    } else {
      assert (p + q)[1..] == p[1..] + q;
      WorstSegmentAppend(core, p[1..], q);
      MaxLaws(LinkCategory(core, p[0]), WorstSegment(core, p[1..]), WorstSegment(core, q));
    }
  }

  lemma LastSegment(core: Text -> Category, segments: seq<Text>)
    requires segments != []
    ensures var n := |segments| - 1;
      WorstSegment(core, segments)
      == MaxCategory(WorstSegment(core, segments[..n]), LinkCategory(core, segments[n]))
  {
    var n := |segments| - 1;
    assert segments == segments[..n] + [segments[n]];
    WorstSegmentAppend(core, segments[..n], [segments[n]]);
    MaxLaws(LinkCategory(core, segments[n]), Read, Read);
  }

  lemma WorstSegmentDropBlank(core: Text -> Category, segments: seq<Text>)
    requires segments != []
    ensures WorstSegment(core, DropBlankTail(segments)) == WorstSegment(core, segments)
  {
    LastSegment(core, segments);
    if Trim(segments[|segments| - 1]) == [] {
      BlankLink(core, segments[|segments| - 1]);
      MaxLaws(WorstSegment(core, segments[..|segments| - 1]), Read, Read);
    }
  }

  lemma WorstSegmentAttach(core: Text -> Category, lead: Text, segments: seq<Text>)
    requires Blank(lead) && segments != []
    ensures WorstSegment(core, Attach(lead, segments)) == WorstSegment(core, segments)
  {
    LinkAround(core, lead, segments[0], []);
    assert lead + segments[0] + [] == lead + segments[0];
  }

  lemma WorstSegmentAttachEnd(core: Text -> Category, segments: seq<Text>, tail: Text)
    requires Blank(tail) && segments != []
    ensures WorstSegment(core, AttachEnd(segments, tail)) == WorstSegment(core, segments)
  {
    var n := |segments| - 1;
    LinkAround(core, [], segments[n], tail);
    assert [] + segments[n] + tail == segments[n] + tail;
    LastSegment(core, segments);
    LastSegment(core, AttachEnd(segments, tail));
    assert AttachEnd(segments, tail)[..n] == segments[..n];
  }

  lemma BlankStep(m: Mode, u: CodeUnit, next: Option<CodeUnit>)
    requires IsSpace(u)
    ensures Step(m, u, next) == Keep(m)
  { }

  lemma {:induction false} PiecesLead(lead: Text, s: Text, m: Mode)
    requires Blank(lead)
    ensures Pieces(lead + s, m) == Attach(lead, Pieces(s, m))
  {
    if lead == [] {
      assert lead + s == s && lead + Pieces(s, m)[0] == Pieces(s, m)[0];
    } else {
      assert (lead + s)[1..] == lead[1..] + s;
      BlankStep(m, lead[0], At(lead + s, 1));
      PiecesLead(lead[1..], s, m);
      AttachTwice([lead[0]], lead[1..], Pieces(s, m));
      assert [lead[0]] + lead[1..] == lead;
    }
  }

  lemma StepBeforeBlank(s: Text, tail: Text, m: Mode)
    requires Blank(tail) && s != []
    ensures Step(m, s[0], At(s + tail, 1)) == Step(m, s[0], At(s, 1))
  {
    if |s| == 1 && tail != [] {
      assert At(s + tail, 1) == Some(tail[0]);
      LookaheadAtEnd(m, s[0], tail[0]);
    }
  }

  lemma {:induction false} PiecesTail(s: Text, tail: Text, m: Mode)
    requires Blank(tail)
    ensures Pieces(s + tail, m) == AttachEnd(Pieces(s, m), tail)
    decreases |s|
  {
    if s == [] {
      PiecesLead(tail, [], m);
      assert s + tail == tail + [] == tail && [] + tail == tail + [];
    } else {
      StepBeforeBlank(s, tail, m);
      match Step(m, s[0], At(s, 1))
      case Keep(m') =>
        PiecesTail(s[1..], tail, m');
        FirstAndRest(s, tail);
        PiecesKeep(s, s[0], s[1..], m, m');
        PiecesKeep(s + tail, s[0], s[1..] + tail, m, m');
        AttachEndAttach([s[0]], Pieces(s[1..], m'), tail);
      case Cut(w) =>
        PiecesTail(s[w..], tail, m);
        FirstAndRest(s, tail);
        assert (s + tail)[w..] == s[w..] + tail;
        PiecesCut(s, s[0], s[w..], m, w);
        PiecesCut(s + tail, s[0], s[w..] + tail, m, w);
        AttachEndCons([], Pieces(s[w..], m), tail);
    }
  }

  lemma WorstAround(core: Text -> Category, lead: Text, s: Text, tail: Text)
    requires Blank(lead) && Blank(tail)
    ensures WorstSegment(core, Pieces(lead + s + tail, START)) == WorstSegment(core, Pieces(s, START))
  {
    assert lead + s + tail == lead + (s + tail);
    PiecesLead(lead, s + tail, START);
    PiecesTail(s, tail, START);
    WorstSegmentAttach(core, lead, AttachEnd(Pieces(s, START), tail));
    WorstSegmentAttachEnd(core, Pieces(s, START), tail);
  }

  // ---- The redirect signal.

  lemma RedirectAcross(a: Text, op: Text, b: Text)
    requires op != [] && GT !in op
    ensures HasRedirect(a + op + b) <==> HasRedirect(a) || HasRedirect(b)
  {
    var t, n := a + op + b, |a| + |op|;
    assert t[n - 1] == op[|op| - 1] && t[|a|] == op[0];
    forall i | 0 <= i < |a| ensures RedirectAt(t, i) <==> RedirectAt(a, i) {
      assert t[i] == a[i];
    }
    forall i | |a| <= i < n ensures !RedirectAt(t, i) {
      assert t[i] == op[i - |a|];
    }
    forall i | 0 <= i < |b| ensures RedirectAt(t, n + i) <==> RedirectAt(b, i) {
      assert forall k :: 0 <= k < |b| ==> t[n + k] == b[k];
    }
    if i :| 0 <= i < |t| && RedirectAt(t, i) {
      if i >= n { assert RedirectAt(b, i - n); }
    }
    if i :| 0 <= i < |a| && RedirectAt(a, i) { assert RedirectAt(t, i); }
    if i :| 0 <= i < |b| && RedirectAt(b, i) { assert RedirectAt(t, n + i); }
  }

  lemma RedirectAround(lead: Text, s: Text, tail: Text)
    requires Blank(lead) && Blank(tail)
    ensures HasRedirect(lead + s + tail) <==> HasRedirect(s)
  {
    assert HasRedirect(lead + s) <==> HasRedirect(s) by {
      if lead == [] { assert lead + s == s; } else {
        RedirectAcross([], lead, s);
        assert [] + lead + s == lead + s;
      }
    }
    if tail == [] { assert lead + s + tail == lead + s; } else {
      RedirectAcross(lead + s, tail, []);
      assert lead + s + tail + [] == lead + s + tail;
    }
  }

  // ---- The shell-pipe signal.

  lemma ShellUnitsAreWord(k: int, i: int)
    requires 0 <= k < |SHELLS| && 0 <= i < |SHELLS[k]|
    ensures IsWord(SHELLS[k][i])
  { }

  lemma WordAtCovers(s: Text, j: int, k: int, i: int)
    requires 0 <= k < |SHELLS| && WordAt(s, j, SHELLS[k]) && j <= i < j + |SHELLS[k]|
    ensures IsWord(s[i])
  {
    ShellUnitsAreWord(k, i - j);
    assert s[j..j + |SHELLS[k]|][i - j] == s[i];
  }

  lemma WordAtPrefix(x: Text, y: Text, j: int, k: int)
    requires 0 <= k < |SHELLS| && 0 <= j && j + |SHELLS[k]| <= |x|
    requires y == [] || !IsWord(y[0])
    ensures WordAt(x + y, j, SHELLS[k]) <==> WordAt(x, j, SHELLS[k])
  {
    var n := j + |SHELLS[k]|;
    assert (x + y)[j..n] == x[j..n];
    if n < |x| { assert (x + y)[n] == x[n]; } else if y != [] { assert (x + y)[n] == y[0]; }
  }

  /** A text that does not start in a word, and has no shell name ahead, ends the search. */
  lemma ShellHeadCut(x: Text, y: Text)
    requires (y == [] || !IsWord(y[0])) && !ShellHead(y)
    ensures ShellHead(x + y) <==> ShellHead(x)
  {
    var t := x + y;
    if j :| 0 <= j <= |t| && ShellHeadAt(t, j) {
      var k :| 0 <= k < |SHELLS| && WordAt(t, j, SHELLS[k]);
      if j + |SHELLS[k]| <= |x| {
        WordAtPrefix(x, y, j, k);
        assert forall i :: 0 <= i < j ==> x[i] == t[i];
        assert ShellHeadAt(x, j);
      } else if j <= |x| {
        WordAtCovers(t, j, k, |x|);
        assert false;
      } else {
        var w := SHELLS[k];
        assert t[j..j + |w|] == y[j - |x|..j - |x| + |w|];
        if j + |w| < |t| { assert t[j + |w|] == y[j - |x| + |w|]; }
        assert WordAt(y, j - |x|, w);
        forall i | 0 <= i < j - |x| ensures IsSpace(y[i]) { assert y[i] == t[|x| + i]; }
        assert ShellHeadAt(y, j - |x|);
        assert false;
      }
    }
    if j :| 0 <= j <= |x| && ShellHeadAt(x, j) {
      var k :| 0 <= k < |SHELLS| && WordAt(x, j, SHELLS[k]);
      WordAtPrefix(x, y, j, k);
      assert ShellHeadAt(t, j);
    }
  }

  lemma NoShellAhead(y: Text)
    requires y != [] && !IsWord(y[0]) && !IsSpace(y[0])
    ensures !ShellHead(y)
  {
    if j :| 0 <= j <= |y| && ShellHeadAt(y, j) {
      var k :| 0 <= k < |SHELLS| && WordAt(y, j, SHELLS[k]);
      WordAtCovers(y, j, k, j);
      assert false;
    }
  }

  lemma NoShellInBlank(y: Text)
    requires Blank(y)
    ensures !ShellHead(y)
  {
    if j :| 0 <= j <= |y| && ShellHeadAt(y, j) {
      var k :| 0 <= k < |SHELLS| && WordAt(y, j, SHELLS[k]);
      WordAtCovers(y, j, k, j);
      assert false;
    }
  }

  predicate PipedAt(s: Text, i: int) {
    0 <= i < |s| && s[i] == BAR && ShellHead(s[i + 1..])
  }

  lemma PipeIffPiped(s: Text)
    ensures HasPipeToShell(s) <==> exists i :: PipedAt(s, i)
  {
    if i :| PipedAt(s, i) { assert 0 <= i < |s| && s[i] == BAR; }
    if i :| 0 <= i < |s| && s[i] == BAR && ShellHead(s[i + 1..]) { assert PipedAt(s, i); }
  }

  /** Where a shell pipe can sit in a chain or pipeline: in either side, or, across `|` and `||`, at the last
      bar. */
  lemma PipeAcross(a: Text, op: Text, b: Text)
    requires IsOperator(op) || op == [BAR]
    ensures HasPipeToShell(a + op + b)
      <==> HasPipeToShell(a) || HasPipeToShell(b) || ((op == [BAR] || op == [BAR, BAR]) && ShellHead(b))
  {
    var t, n := a + op + b, |a| + |op|;
    var across := (op == [BAR] || op == [BAR, BAR]) && ShellHead(b);
    assert t == a + (op + b);
    forall i | 0 <= i < |a| ensures PipedAt(t, i) <==> PipedAt(a, i) {
      PipedBefore(a, op + b, i);
    }
    forall i | |a| <= i < n ensures PipedAt(t, i) <==> i == n - 1 && across {
      PipedInside(a, op, b, i);
    }
    forall i | 0 <= i < |b| ensures PipedAt(t, n + i) <==> PipedAt(b, i) {
      PipedAfter(a + op, b, i);
    }
    PipeIffPiped(t);
    PipeIffPiped(a);
    PipeIffPiped(b);
    if i :| PipedAt(t, i) {
      if i >= n { assert PipedAt(b, i - n); }
    }
    if i :| PipedAt(a, i) { assert PipedAt(t, i); }
    if i :| PipedAt(b, i) { assert PipedAt(t, n + i); }
    if across { assert PipedAt(t, n - 1); }
  }

  lemma PipedInside(a: Text, op: Text, b: Text, i: nat)
    requires IsOperator(op) || op == [BAR]
    requires |a| <= i < |a| + |op|
    ensures PipedAt(a + op + b, i)
      <==> i == |a| + |op| - 1 && (op == [BAR] || op == [BAR, BAR]) && ShellHead(b)
  {
    var t := a + op + b;
    assert t[i] == op[i - |a|] && t[i + 1..] == op[i - |a| + 1..] + b;
    if i == |a| + |op| - 1 {
      assert [] + b == b;
    } else {
      assert op[1..] == [op[1]];
      NoShellAhead([op[1]] + b);
    }
  }

  lemma PipedAfter(before: Text, b: Text, i: nat)
    requires i < |b|
    ensures PipedAt(before + b, |before| + i) <==> PipedAt(b, i)
  {
    assert (before + b)[|before| + i + 1..] == b[i + 1..] && (before + b)[|before| + i] == b[i];
  }

  lemma PipedBefore(a: Text, rest: Text, i: nat)
    requires i < |a| && rest != [] && !IsWord(rest[0]) && !IsSpace(rest[0])
    ensures PipedAt(a + rest, i) <==> PipedAt(a, i)
  {
    assert (a + rest)[i + 1..] == a[i + 1..] + rest && (a + rest)[i] == a[i];
    NoShellAhead(rest);
    ShellHeadCut(a[i + 1..], rest);
  }

  lemma PipeAround(lead: Text, s: Text, tail: Text)
    requires Blank(lead) && Blank(tail)
    ensures HasPipeToShell(lead + s + tail) <==> HasPipeToShell(s)
  {
    var t, n := lead + s + tail, |lead|;
    NoShellInBlank(tail);
    forall i | 0 <= i < |s| ensures PipedAt(t, n + i) <==> PipedAt(s, i) {
      assert t[n + i + 1..] == s[i + 1..] + tail && t[n + i] == s[i];
      ShellHeadCut(s[i + 1..], tail);
    }
    forall i | 0 <= i < n ensures !PipedAt(t, i) { assert t[i] == lead[i]; }
    forall i | n + |s| <= i < |t| ensures !PipedAt(t, i) { assert t[i] == tail[i - n - |s|]; }
    PipeIffPiped(t);
    PipeIffPiped(s);
    if i :| PipedAt(t, i) {
      assert PipedAt(s, i - n);
    }
    if i :| PipedAt(s, i) { assert PipedAt(t, n + i); }
  }

  // ---- The homomorphism.

  /** The classification without the initial `trim`. */
  function ClassifyUntrimmed(core: Text -> Category, s: Text): Category {
    Signals(HasPipeToShell(s), WorstSegment(core, Pieces(s, START)), HasRedirect(s))
  }

  lemma TrimIrrelevant(core: Text -> Category, command: Text)
    ensures Classify(core, command) == ClassifyUntrimmed(core, command)
  {
    var lead, tail := TrimShape(command);
    var t := Trim(command);
    WorstSegmentDropBlank(core, Pieces(t, START));
    WorstAround(core, lead, t, tail);
    RedirectAround(lead, t, tail);
    PipeAround(lead, t, tail);
  }

  /** Chaining takes the maximum. `a` has to end outside quotes and parentheses (and not in half
      of the operator); then the chain is exactly as dangerous as its worse side, except that
      `||` followed by a shell name reads as a pipe into that shell. */
  lemma ClassifyChain(core: Text -> Category, a: Text, op: Text, b: Text)
    requires IsOperator(op) && EndMode(a, START) == START && !EndsInHalf(a, START, op)
    ensures Classify(core, a + op + b)
      == MaxCategory(MaxCategory(Classify(core, a), Classify(core, b)),
                     if op == [BAR, BAR] && ShellHead(b) then Dangerous else Read)
  {
    TrimIrrelevant(core, a);
    TrimIrrelevant(core, b);
    TrimIrrelevant(core, a + op + b);
    WorstAcross(core, a, op, b);
    RedirectAcross(a, op, b);
    PipeAcross(a, op, b);
    SignalsJoin(HasPipeToShell(a), WorstSegment(core, Pieces(a, START)), HasRedirect(a),
      HasPipeToShell(b), WorstSegment(core, Pieces(b, START)), HasRedirect(b), op == [BAR, BAR] && ShellHead(b));
  }

  lemma SignalsJoin(p: bool, w: Category, r: bool, p': bool, w': Category, r': bool, across: bool)
    ensures Signals(p || p' || across, MaxCategory(w, w'), r || r')
      == MaxCategory(MaxCategory(Signals(p, w, r), Signals(p', w', r')), if across then Dangerous else Read)
  { }

  lemma WorstAcross(core: Text -> Category, a: Text, op: Text, b: Text)
    requires IsOperator(op) && EndMode(a, START) == START && !EndsInHalf(a, START, op)
    ensures WorstSegment(core, Pieces(a + op + b, START))
      == MaxCategory(WorstSegment(core, Pieces(a, START)), WorstSegment(core, Pieces(b, START)))
  {
    PiecesAcross(a, START, op, b);
    WorstSegmentAppend(core, Pieces(a, START), Pieces(b, START));
  }

  /** For `;` this is a homomorphism without exception. */
  lemma ClassifySequence(core: Text -> Category, a: Text, b: Text)
    requires EndMode(a, START) == START
    ensures Classify(core, a + [SEMI] + b) == MaxCategory(Classify(core, a), Classify(core, b))
  {
    ClassifyChain(core, a, [SEMI], b);
  }

  /** For `||` it holds exactly when the right side is not a shell invocation or one of the sides
      is dangerous anyway. */
  lemma ClassifyAlternative(core: Text -> Category, a: Text, b: Text)
    requires EndMode(a, START) == START && !EndsInHalf(a, START, [BAR, BAR])
    ensures Classify(core, a + [BAR, BAR] + b) == MaxCategory(Classify(core, a), Classify(core, b))
      <==> !ShellHead(b) || Classify(core, a) == Dangerous || Classify(core, b) == Dangerous
  {
    ClassifyChain(core, a, [BAR, BAR], b);
  }

  /** "echo a" and "sh" */
  const ECHO: Text := [101, 99, 104, 111, 32, 97]
  const SH: Text := [115, 104]
  const BLANK: Text := [32]

  /** `echo a || sh` is dangerous, whatever its sides are, and above both where neither of them is. */
  lemma DoubleBarWitness(core: Text -> Category)
    ensures Classify(core, ECHO + BLANK + [BAR, BAR] + (BLANK + SH)) == Dangerous
    ensures Classify(core, ECHO + BLANK) == core(ECHO) && Classify(core, BLANK + SH) == core(SH)
  {
    PlainCommand(core, [], ECHO, BLANK);
    PlainCommand(core, BLANK, SH, []);
    assert [] + ECHO + BLANK == ECHO + BLANK && BLANK + SH + [] == BLANK + SH;
    ShellAhead();
    PlainChain(core, ECHO + BLANK, BLANK + SH);
  }

  lemma ShellAhead()
    ensures ShellHead(BLANK + SH)
  {
    var s := BLANK + SH;
    assert WordAt(s, 1, SHELLS[0]);
    assert ShellAt(s, 1);
    assert ShellHeadAt(s, 1);
  }

  lemma PlainChain(core: Text -> Category, a: Text, b: Text)
    requires ShellHead(b) && a != [] && forall i :: 0 <= i < |a| ==> Plain(a[i])
    ensures Classify(core, a + [BAR, BAR] + b) == Dangerous
  {
    PlainIsOnePiece(a);
    ClassifyChain(core, a, [BAR, BAR], b);
  }

  /** A unit without meaning to the scanners and to the two signals. */
  predicate Plain(u: CodeUnit) {
    u !in {SQUOTE, DQUOTE, LPAREN, RPAREN, DOLLAR, SEMI, AMP, BAR, GT}
  }

  lemma {:induction false} PlainIsOnePiece(s: Text)
    requires forall i :: 0 <= i < |s| ==> Plain(s[i])
    ensures EndMode(s, START) == START && Pieces(s, START) == [s]
  {
    if s != [] {
      PlainIsOnePiece(s[1..]);
      assert s == [s[0]] + s[1..];
    }
  }

  lemma {:induction false} PlainIsOneStage(s: Text, prev: Option<CodeUnit>)
    requires forall i :: 0 <= i < |s| ==> Plain(s[i])
    ensures Stages(s, prev, UNQUOTED) == [s]
  {
    if s != [] {
      PlainIsOneStage(s[1..], Some(s[0]));
      assert s == [s[0]] + s[1..];
    }
  }

  /** A command without operators, quotes, parentheses and redirects is classified as it stands. */
  lemma PlainCommand(core: Text -> Category, lead: Text, s: Text, tail: Text)
    requires Blank(lead) && Blank(tail) && Trimmed(s) && s != [] && forall i :: 0 <= i < |s| ==> Plain(s[i])
    ensures Classify(core, lead + s + tail) == core(s)
  {
    TrimPadded(lead, s, tail);
    TrimPadded([], s, []);
    assert [] + s + [] == s;
    PlainIsOnePiece(s);
    PlainIsOneStage(s, None);
    assert SplitChain(s) == [s] && SplitPipe(s) == [s];
    assert WorstStage(core, [s]) == core(s) by {
      WorstOfOne(core, s);
    }
    assert WorstSegment(core, [s]) == MaxCategory(core(s), WorstSegment(core, []));
  }

  // ---- Substitutions are left open.

  predicate StartsSubstitution(s: Text) {
    |s| > 1 && s[0] == DOLLAR && s[1] == LPAREN
  }

  function Substitutions(s: Text): nat {
    if s == [] then 0 else Substitutions(s[1..]) + if StartsSubstitution(s) then 1 else 0
  }

  /** With `open` parentheses open before it, the text closes them and all of its own, and no others. */
  predicate Closes(s: Text, open: nat) {
    if s == [] then open == 0
    else if s[0] == LPAREN then Closes(s[1..], open + 1)
    else if s[0] == RPAREN then open > 0 && Closes(s[1..], open - 1)
    else Closes(s[1..], open)
  }

  /** The scanner meets `$(` outside quotes. */
  predicate Meets(s: Text, m: Mode)
    decreases |s|
  {
    s != [] &&
    ((StartsSubstitution(s) && !m.single && !m.double) ||
     match Step(m, s[0], At(s, 1))
     case Keep(m') => Meets(s[1..], m')
     case Cut(w) => Meets(s[w..], m))
  }

  /** The text is complete: up to the first `$(` outside quotes as the scanner reads it, and from there on
      by count of its parentheses. */
  predicate Complete(s: Text, m: Mode)
    decreases |s|
  {
    if s == [] then m == START
    else if StartsSubstitution(s) && !m.single && !m.double then Closes(s, m.depth)
    else
      match Step(m, s[0], At(s, 1))
      case Keep(m') => Complete(s[1..], m')
      case Cut(w) => Complete(s[w..], m)
  }

  /** Deeper than its open parentheses by `extra`, the scanner gets deeper with every substitution; it never
      gets out, sees no quotes and cuts nothing. */
  lemma {:induction false} DepthDrifts(s: Text, open: nat, extra: nat)
    requires extra > 0 && Closes(s, open)
    ensures EndMode(s, Mode(false, false, extra + open)) == Mode(false, false, extra + Substitutions(s))
    ensures Pieces(s, Mode(false, false, extra + open)) == [s]
  {
    if s != [] {
      var bump := if StartsSubstitution(s) then 1 else 0;
      var open' := if s[0] == LPAREN then open + 1 else if s[0] == RPAREN then open - 1 else open;
      DepthDrifts(s[1..], open', extra + bump);
      StepIn(s, Mode(false, false, extra + open), Mode(false, false, extra + bump + open'));
    }
  }

  /** Keeping the first unit of a text whose rest is one piece. */
  lemma StepIn(s: Text, m: Mode, m': Mode)
    requires s != [] && Step(m, s[0], At(s, 1)) == Keep(m') && Pieces(s[1..], m') == [s[1..]]
    ensures Pieces(s, m) == [s] && EndMode(s, m) == EndMode(s[1..], m')
  {
    assert s == [s[0]] + s[1..];
  }

  /** A complete text leaves the scanner outside quotes and parentheses exactly when it has no `$(` outside
      quotes: `$(` raises the depth twice and `)` lowers it once. */
  lemma {:induction false} SubstitutionStaysOpen(s: Text, m: Mode)
    requires Complete(s, m)
    ensures EndMode(s, m) == START <==> !Meets(s, m)
    ensures Meets(s, m) ==> EndMode(s, m).depth > 0 && !EndMode(s, m).single && !EndMode(s, m).double
    decreases |s|
  {
    if s != [] {
      if StartsSubstitution(s) && !m.single && !m.double {
        DepthDrifts(s[1..], m.depth, 1);
      } else {
        match Step(m, s[0], At(s, 1))
        case Keep(m') => SubstitutionStaysOpen(s[1..], m');
        case Cut(w) => SubstitutionStaysOpen(s[w..], m);
      }
    }
  }

  /** Without quotes, a text is complete when its parentheses balance by count, and it has a `$(` outside
      quotes when it has one at all. */
  lemma {:induction false} UnquotedIsComplete(s: Text, open: nat)
    requires Closes(s, open) && SQUOTE !in s && DQUOTE !in s
    ensures Complete(s, Mode(false, false, open))
    ensures Meets(s, Mode(false, false, open)) <==> Substitutions(s) > 0
    decreases |s|
  {
    if s != [] && !StartsSubstitution(s) {
      match Step(Mode(false, false, open), s[0], At(s, 1))
      case Keep(m') => UnquotedIsComplete(s[1..], m'.depth);
      case Cut(w) =>
        assert w == 2 ==> s[1..][1..] == s[2..] && s[1..][0] == s[0] != DOLLAR;
        UnquotedIsComplete(s[w..], open);
    }
  }

  /** `q` goes on with the last piece of `p`. */
  function Continue(p: seq<Text>, q: seq<Text>): seq<Text>
    requires p != [] && q != []
  {
    p[..|p| - 1] + [p[|p| - 1] + q[0]] + q[1..]
  }

  lemma ContinueAttach(x: Text, p: seq<Text>, q: seq<Text>)
    requires p != [] && q != []
    ensures Attach(x, Continue(p, q)) == Continue(Attach(x, p), q)
  {
    if |p| == 1 {
      assert x + (p[0] + q[0]) == x + p[0] + q[0];
    }
  }

  lemma ContinueCons(p: seq<Text>, q: seq<Text>)
    requires p != [] && q != []
    ensures [[]] + Continue(p, q) == Continue([[]] + p, q)
  { }

  lemma ContinueEmpty(q: seq<Text>)
    requires q != []
    ensures Continue([[]], q) == q
  {
    assert [] + q[0] == q[0];
  }

  lemma ContinueKeep(s: Text, m: Mode, rest: Text, m': Mode, q: seq<Text>)
    requires s != [] && q != [] && Step(m, s[0], At(s, 1)) == Step(m, s[0], At(s + rest, 1)) == Keep(m')
    requires Pieces(s[1..] + rest, m') == Continue(Pieces(s[1..], m'), q)
    ensures Pieces(s + rest, m) == Continue(Pieces(s, m), q)
  {
    FirstAndRest(s, rest);
    PiecesKeep(s, s[0], s[1..], m, m');
    PiecesKeep(s + rest, s[0], s[1..] + rest, m, m');
    ContinueAttach([s[0]], Pieces(s[1..], m'), q);
  }

  lemma FirstAndRest(s: Text, rest: Text)
    requires s != []
    ensures s + rest != [] && (s + rest)[0] == s[0] && (s + rest)[1..] == s[1..] + rest
  { }

  lemma ContinueCut(s: Text, m: Mode, rest: Text, w: nat, q: seq<Text>)
    requires s != [] && q != [] && Step(m, s[0], At(s, 1)) == Step(m, s[0], At(s + rest, 1)) == Cut(w)
    requires Pieces(s[w..] + rest, m) == Continue(Pieces(s[w..], m), q)
    ensures Pieces(s + rest, m) == Continue(Pieces(s, m), q)
  {
    assert (s + rest)[w..] == s[w..] + rest;
    ContinueCons(Pieces(s[w..], m), q);
  }

  /** The scan of what comes after `s` goes on with the last piece of `s`. */
  lemma {:induction false} PiecesContinue(s: Text, m: Mode, op: Text, b: Text)
    requires IsOperator(op) && !EndsInHalf(s, m, op)
    ensures Pieces(s + (op + b), m) == Continue(Pieces(s, m), Pieces(op + b, EndMode(s, m)))
    decreases |s|
  {
    var q := Pieces(op + b, EndMode(s, m));
    if s == [] {
      assert s + (op + b) == op + b;
      ContinueEmpty(q);
    } else {
      StepAcross(s, m, op, b);
      assert s + op + b == s + (op + b);
      match Step(m, s[0], At(s, 1))
      case Keep(m') =>
        HalfOfRest(s, m, op, m');
        PiecesContinue(s[1..], m', op, b);
        ContinueKeep(s, m, op + b, m', q);
      case Cut(w) =>
        HalfAfterCut(s, m, op, w);
        PiecesContinue(s[w..], m, op, b);
        ContinueCut(s, m, op + b, w, q);
    }
  }

  /** Whether an operator after a complete text is cut: it is, exactly when the text has no `$(` outside
      quotes. */
  lemma OperatorCutIffNoSubstitution(s: Text, op: Text, b: Text)
    requires Complete(s, START) && IsOperator(op) && !EndsInHalf(s, START, op)
    ensures Pieces(s + op + b, START) == Pieces(s, START) + Pieces(b, START) <==> !Meets(s, START)
  {
    SubstitutionStaysOpen(s, START);
    if Meets(s, START) {
      var p, m := Pieces(s, START), EndMode(s, START);
      var q := Pieces(op + b, m);
      PiecesContinue(s, START, op, b);
      assert s + op + b == s + (op + b);
      assert Step(m, op[0], At(op + b, 1)).Keep?;
      assert q[0] != [];
      assert Pieces(s + op + b, START)[|p| - 1] == p[|p| - 1] + q[0];
      assert (p + Pieces(b, START))[|p| - 1] == p[|p| - 1];
    } else {
      PiecesAcross(s, START, op, b);
    }
  }
}
