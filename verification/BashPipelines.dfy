/** What quotes and parentheses protect from being cut, and the classification of a pipeline in terms of the
    classifications of its stages. */
module BashPipelines {
  import opened JsText
  import opened BashSplit
  import opened BashClassify
  import opened BashHomomorphism

  // ---- What quotes and parentheses protect.

  /** No unit looks ahead to this one. */
  predicate Unwatched(u: CodeUnit) {
    u != LPAREN && u != AMP && u != BAR
  }

  lemma StepBeforeUnwatched(s: Text, rest: Text, m: Mode)
    requires s != [] && rest != [] && Unwatched(rest[0])
    ensures Step(m, s[0], At(s + rest, 1)) == Step(m, s[0], At(s, 1))
  {
    if |s| == 1 {
      LookaheadAtEnd(m, s[0], rest[0]);
    }
  }

  /** The scan of a text goes on where the scan of its beginning ends. */
  lemma {:induction false} PiecesThen(s: Text, m: Mode, rest: Text)
    requires rest != [] && Unwatched(rest[0])
    ensures Pieces(s + rest, m) == Continue(Pieces(s, m), Pieces(rest, EndMode(s, m)))
    decreases |s|
  {
    var q := Pieces(rest, EndMode(s, m));
    if s == [] {
      assert s + rest == rest;
      ContinueEmpty(q);
    } else {
      StepBeforeUnwatched(s, rest, m);
      match Step(m, s[0], At(s, 1))
      case Keep(m') =>
        PiecesThen(s[1..], m', rest);
        ContinueKeep(s, m, rest, m', q);
      case Cut(w) =>
        PiecesThen(s[w..], m, rest);
        ContinueCut(s, m, rest, w, q);
    }
  }

  predicate IsQuote(u: CodeUnit) {
    u == SQUOTE || u == DQUOTE
  }

  function Quoting(quote: CodeUnit): Mode {
    Mode(quote == SQUOTE, quote == DQUOTE, 0)
  }

  lemma {:induction false} PiecesInQuotes(quote: CodeUnit, x: Text, b: Text)
    requires IsQuote(quote) && quote !in x
    ensures Pieces(x + [quote] + b, Quoting(quote)) == Attach(x + [quote], Pieces(b, START))
  {
    var t, m := x + [quote] + b, Quoting(quote);
    if x == [] {
      assert t == [quote] + b && t[1..] == b && x + [quote] == [quote];
      PiecesKeep(t, quote, b, m, START);
    } else {
      DropAcross(x, [quote], b, 1);
      PiecesInQuotes(quote, x[1..], b);
      PiecesKeep(t, x[0], x[1..] + [quote] + b, m, m);
      AttachTwice([x[0]], x[1..] + [quote], Pieces(b, START));
      assert [x[0]] + (x[1..] + [quote]) == x + [quote];
    }
  }

  /** Between quotes nothing is cut, whatever it is and whatever stands before and after it. */
  lemma QuotesProtectChain(a: Text, quote: CodeUnit, x: Text, b: Text)
    requires IsQuote(quote) && quote !in x && EndMode(a, START) == START
    ensures var quoted := [quote] + x + [quote];
      Pieces(a + (quoted + b), START) == Continue(Pieces(a, START), Attach(quoted, Pieces(b, START)))
  {
    var quoted, rest := [quote] + x + [quote], x + [quote] + b;
    assert quoted + b == [quote] + rest && ([quote] + rest)[1..] == rest;
    PiecesThen(a, START, quoted + b);
    PiecesKeep(quoted + b, quote, rest, START, Quoting(quote));
    PiecesInQuotes(quote, x, b);
    AttachTwice([quote], x + [quote], Pieces(b, START));
    assert [quote] + (x + [quote]) == quoted;
  }

  lemma {:induction false} StagesThen(s: Text, prev: Option<CodeUnit>, q: Quotes, rest: Text)
    requires rest != [] && rest[0] != BAR
    ensures Stages(s + rest, prev, q) == Continue(Stages(s, prev, q), Stages(rest, None, EndQuotes(s, q)))
  {
    var more := Stages(rest, None, EndQuotes(s, q));
    if s == [] {
      assert s + rest == rest;
      StagesAfter(rest, prev, None, q);
      ContinueEmpty(more);
    } else {
      FirstAndRest(s, rest);
      assert IsPipe(q, prev, s[0], At(s + rest, 1)) == IsPipe(q, prev, s[0], At(s, 1));
      if IsPipe(q, prev, s[0], At(s, 1)) {
        StagesThen(s[1..], Some(s[0]), q, rest);
        ContinueCons(Stages(s[1..], Some(s[0]), q), more);
      } else {
        StagesThen(s[1..], Some(s[0]), Toggle(q, s[0]), rest);
        ContinueAttach([s[0]], Stages(s[1..], Some(s[0]), Toggle(q, s[0])), more);
      }
    }
  }

  lemma {:induction false} StagesInQuotes(quote: CodeUnit, x: Text, prev: Option<CodeUnit>, b: Text)
    requires IsQuote(quote) && quote !in x
    ensures Stages(x + [quote] + b, prev, Quotes(quote == SQUOTE, quote == DQUOTE))
      == Attach(x + [quote], Stages(b, Some(quote), UNQUOTED))
  {
    var t, q := x + [quote] + b, Quotes(quote == SQUOTE, quote == DQUOTE);
    if x == [] {
      assert t == [quote] + b && t[1..] == b && x + [quote] == [quote];
    } else {
      DropAcross(x, [quote], b, 1);
      StagesInQuotes(quote, x[1..], Some(x[0]), b);
      AttachTwice([x[0]], x[1..] + [quote], Stages(b, Some(quote), UNQUOTED));
      assert [x[0]] + (x[1..] + [quote]) == x + [quote];
    }
  }

  /** Nor is a bar between quotes a pipe. */
  lemma QuotesProtectPipeline(a: Text, quote: CodeUnit, x: Text, b: Text)
    requires IsQuote(quote) && quote !in x && EndQuotes(a, UNQUOTED) == UNQUOTED
    ensures var quoted := [quote] + x + [quote];
      Stages(a + (quoted + b), None, UNQUOTED)
      == Continue(Stages(a, None, UNQUOTED), Attach(quoted, Stages(b, Some(quote), UNQUOTED)))
  {
    var quoted, rest := [quote] + x + [quote], x + [quote] + b;
    assert quoted + b == [quote] + rest && ([quote] + rest)[1..] == rest;
    StagesThen(a, None, UNQUOTED, quoted + b);
    StagesInQuotes(quote, x, Some(quote), b);
    AttachTwice([quote], x + [quote], Stages(b, Some(quote), UNQUOTED));
    assert [quote] + (x + [quote]) == quoted;
  }

  /** Between parentheses that balance by count and hold no substitution nothing is cut either. */
  lemma GroupIsOnePiece(x: Text)
    requires Closes(x, 0) && Substitutions(x) == 0
    ensures Pieces([LPAREN] + x + [RPAREN], START) == [[LPAREN] + x + [RPAREN]]
    ensures EndMode([LPAREN] + x + [RPAREN], START) == START
  {
    var inside, t := Mode(false, false, 1), [LPAREN] + x + [RPAREN];
    DepthDrifts(x, 0, 1);
    assert t[1..] == x + [RPAREN];
    ClosesGroup(x, inside);
    StepIn(t, START, inside);
  }

  lemma ClosesGroup(x: Text, m: Mode)
    requires Pieces(x, m) == [x] && EndMode(x, m) == Mode(false, false, 1)
    ensures Pieces(x + [RPAREN], m) == [x + [RPAREN]] && EndMode(x + [RPAREN], m) == START
  {
    PiecesThen(x, m, [RPAREN]);
    PiecesKeep([RPAREN], RPAREN, [], Mode(false, false, 1), START);
    assert Pieces([], START) == [[]] && [RPAREN] + [] == [RPAREN];
    EndModeThen(x, m, [RPAREN]);
  }

  lemma {:induction false} EndModeThen(s: Text, m: Mode, rest: Text)
    requires rest != [] && Unwatched(rest[0])
    ensures EndMode(s + rest, m) == EndMode(rest, EndMode(s, m))
    decreases |s|
  {
    if s == [] {
      assert s + rest == rest;
    } else {
      StepBeforeUnwatched(s, rest, m);
      match Step(m, s[0], At(s, 1))
      case Keep(m') =>
        FirstAndRest(s, rest);
        EndModeThen(s[1..], m', rest);
      case Cut(w) =>
        assert (s + rest)[w..] == s[w..] + rest;
        EndModeThen(s[w..], m, rest);
    }
  }

  // ---- Pipelines.

  lemma StepBeforeBar(s: Text, b: Text, m: Mode)
    requires s != [] && !EndsInBar(s)
    ensures Step(m, s[0], At(s + ([BAR] + b), 1)) == Step(m, s[0], At(s, 1))
  {
    if |s| == 1 {
      LookaheadAtEnd(m, s[0], BAR);
    }
  }

  /** A lone bar goes on with the last piece before it. */
  lemma {:induction false} PiecesAtBar(s: Text, m: Mode, b: Text)
    requires EndMode(s, m) == START && !EndsInBar(s) && !StartsWithBar(b)
    ensures Pieces(s + ([BAR] + b), m) == Continue(Pieces(s, m), Attach([BAR], Pieces(b, START)))
    decreases |s|
  {
    var q := Attach([BAR], Pieces(b, START));
    if s == [] {
      assert s + ([BAR] + b) == [BAR] + b && ([BAR] + b)[1..] == b;
      PiecesKeep([BAR] + b, BAR, b, START, START);
      ContinueEmpty(q);
    } else {
      StepBeforeBar(s, b, m);
      match Step(m, s[0], At(s, 1))
      case Keep(m') =>
        PiecesAtBar(s[1..], m', b);
        ContinueKeep(s, m, [BAR] + b, m', q);
      case Cut(w) =>
        PiecesAtBar(s[w..], m, b);
        ContinueCut(s, m, [BAR] + b, w, q);
    }
  }

  lemma LinkOfStages(core: Text -> Category, s: Text)
    ensures LinkCategory(core, s) == WorstStage(core, Stages(s, None, UNQUOTED))
  {
    WorstStageDropBlank(core, Stages(s, None, UNQUOTED));
  }

  lemma LinkAcrossBar(core: Text -> Category, a: Text, b: Text)
    requires EndQuotes(a, UNQUOTED) == UNQUOTED && !EndsInBar(a) && !StartsWithBar(b)
    ensures LinkCategory(core, a + [BAR] + b) == MaxCategory(LinkCategory(core, a), LinkCategory(core, b))
  {
    StagesAcross(a, None, UNQUOTED, b);
    LinkOfStages(core, a);
    LinkOfStages(core, b);
    LinkOfStages(core, a + [BAR] + b);
    WorstStageAppend(core, Stages(a, None, UNQUOTED), Stages(b, None, UNQUOTED));
  }

  function LastPiece(s: Text, m: Mode): Text {
    Pieces(s, m)[|Pieces(s, m)| - 1]
  }

  lemma {:induction false} LastPieceEnd(s: Text, m: Mode)
    requires LastPiece(s, m) != []
    ensures s != [] && LastPiece(s, m)[|LastPiece(s, m)| - 1] == s[|s| - 1]
    decreases |s|
  {
    match Step(m, s[0], At(s, 1))
    case Keep(m') =>
      var p := Pieces(s[1..], m');
      assert Pieces(s, m) == Attach([s[0]], p);
      if p[|p| - 1] != [] {
        LastPieceEnd(s[1..], m');
      } else {
        NothingLast(s[1..], m');
      }
    case Cut(w) =>
      var p := Pieces(s[w..], m);
      assert Pieces(s, m) == [[]] + p;
      LastPieceEnd(s[w..], m);
  }

  /** The only piece of a text is empty only if the text is. */
  lemma NothingLast(s: Text, m: Mode)
    requires LastPiece(s, m) == [] && |Pieces(s, m)| == 1
    ensures s == []
  { }

  lemma WorstContinued(core: Text -> Category, p: seq<Text>, r: seq<Text>)
    requires p != [] && r != []
    requires EndQuotes(p[|p| - 1], UNQUOTED) == UNQUOTED && !EndsInBar(p[|p| - 1]) && !StartsWithBar(r[0])
    ensures WorstSegment(core, Continue(p, Attach([BAR], r)))
      == MaxCategory(WorstSegment(core, p), WorstSegment(core, r))
  {
    var n := |p| - 1;
    var last, first, joint := p[n], r[0], p[n] + [BAR] + r[0];
    assert p[n] + ([BAR] + r[0]) == joint;
    assert Continue(p, Attach([BAR], r)) == (p[..n] + [joint]) + r[1..];
    LinkAcrossBar(core, last, first);
    WorstSegmentAppend(core, p[..n] + [joint], r[1..]);
    LastSegment(core, p[..n] + [joint]);
    assert (p[..n] + [joint])[..n] == p[..n];
    LastSegment(core, p);
    FourWay(
      WorstSegment(core, p[..n]), LinkCategory(core, last), LinkCategory(core, first), WorstSegment(core, r[1..]));
  }

  lemma FourWay(a: Category, b: Category, c: Category, d: Category)
    ensures MaxCategory(MaxCategory(a, MaxCategory(b, c)), d) == MaxCategory(MaxCategory(a, b), MaxCategory(c, d))
  { }

  /** Piping takes the maximum. `a` has to be complete for both scanners and must not end in a bar, nor `b` begin
      with one; then the pipeline is exactly as dangerous as its worse side, and dangerous when `b` is a shell
      invocation. */
  lemma ClassifyPipe(core: Text -> Category, a: Text, b: Text)
    requires EndMode(a, START) == START && EndQuotes(LastPiece(a, START), UNQUOTED) == UNQUOTED
    requires !EndsInBar(a) && !StartsWithBar(b)
    ensures Classify(core, a + [BAR] + b)
      == MaxCategory(MaxCategory(Classify(core, a), Classify(core, b)), if ShellHead(b) then Dangerous else Read)
  {
    TrimIrrelevant(core, a);
    TrimIrrelevant(core, b);
    TrimIrrelevant(core, a + [BAR] + b);
    WorstAcrossBar(core, a, b);
    RedirectAcross(a, [BAR], b);
    PipeAcross(a, [BAR], b);
    SignalsJoin(HasPipeToShell(a), WorstSegment(core, Pieces(a, START)), HasRedirect(a),
      HasPipeToShell(b), WorstSegment(core, Pieces(b, START)), HasRedirect(b), ShellHead(b));
  }

  lemma WorstAcrossBar(core: Text -> Category, a: Text, b: Text)
    requires EndMode(a, START) == START && EndQuotes(LastPiece(a, START), UNQUOTED) == UNQUOTED
    requires !EndsInBar(a) && !StartsWithBar(b)
    ensures WorstSegment(core, Pieces(a + [BAR] + b, START))
      == MaxCategory(WorstSegment(core, Pieces(a, START)), WorstSegment(core, Pieces(b, START)))
  {
    assert a + [BAR] + b == a + ([BAR] + b);
    PiecesAtBar(a, START, b);
    if LastPiece(a, START) != [] { LastPieceEnd(a, START); }
    FirstPieceStart(b, START);
    WorstContinued(core, Pieces(a, START), Pieces(b, START));
  }

  /** Without parentheses both scanners see the same quotes. */
  lemma {:induction false} SameQuotes(s: Text, m: Mode)
    requires LPAREN !in s && m.depth == 0
    ensures var q := EndQuotes(LastPiece(s, m), if |Pieces(s, m)| == 1 then Quotes(m.single, m.double) else UNQUOTED);
      EndMode(s, m) == Mode(q.single, q.double, 0)
    decreases |s|
  {
    if s != [] {
      match Step(m, s[0], At(s, 1))
      case Keep(m') =>
        SameQuotes(s[1..], m');
        var p := Pieces(s[1..], m');
        assert Pieces(s, m) == Attach([s[0]], p);
        assert Quotes(m'.single, m'.double) == Toggle(Quotes(m.single, m.double), s[0]);
        if |p| == 1 { assert ([s[0]] + p[0])[1..] == p[0]; }
      case Cut(w) => SameQuotes(s[w..], m);
    }
  }

  /** So for texts without parentheses it is enough that the quotes are closed before the bar. */
  lemma ClassifyPipeUnnested(core: Text -> Category, a: Text, b: Text)
    requires LPAREN !in a && EndMode(a, START) == START && !EndsInBar(a) && !StartsWithBar(b)
    ensures Classify(core, a + [BAR] + b)
      == MaxCategory(MaxCategory(Classify(core, a), Classify(core, b)), if ShellHead(b) then Dangerous else Read)
  {
    SameQuotes(a, START);
    ClassifyPipe(core, a, b);
  }
}
