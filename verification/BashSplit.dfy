/** The two quote-aware scanners of the bash parser: splitting at `;`, `&&` and `||`, and
    splitting a segment at `|`. */
module BashSplit {
  import opened JsText

  const SQUOTE: CodeUnit := 39
  const DQUOTE: CodeUnit := 34
  const LPAREN: CodeUnit := 40
  const RPAREN: CodeUnit := 41
  const DOLLAR: CodeUnit := 36
  const SEMI: CodeUnit := 59
  const AMP: CodeUnit := 38
  const BAR: CodeUnit := 124

  function At(s: Text, i: nat): Option<CodeUnit> {
    if i < |s| then Some(s[i]) else None
  }

  /** Puts `current` in front of the first piece. */
  function Attach(current: Text, pieces: seq<Text>): (r: seq<Text>)
    requires pieces != []
    ensures |r| == |pieces|
  {
    [current + pieces[0]] + pieces[1..]
  }

  /** Drops the last piece when it is blank, as both splitters do. */
  function DropBlankTail(pieces: seq<Text>): seq<Text>
    requires pieces != []
  {
    if Trim(pieces[|pieces| - 1]) == [] then pieces[..|pieces| - 1] else pieces
  }

  lemma AttachTwice(x: Text, y: Text, pieces: seq<Text>)
    requires pieces != []
    ensures Attach(x, Attach(y, pieces)) == Attach(x + y, pieces)
  {
    assert x + (y + pieces[0]) == x + y + pieces[0];
  }

  // ---- Splitting a chain.

  datatype Mode = Mode(single: bool, double: bool, depth: nat)

  const START := Mode(false, false, 0)

  /** What the scanner does with one unit: keep it, or cut out an operator of `width` units. */
  datatype Action = Keep(mode: Mode) | Cut(width: nat)

  function Step(m: Mode, ch: CodeUnit, next: Option<CodeUnit>): (action: Action)
    ensures action.Cut? ==> m == START && 1 <= action.width <= 2 && (action.width == 2 ==> next == Some(ch))
  {
    if ch == SQUOTE && !m.double && m.depth == 0 then Keep(m.(single := !m.single))
    else if ch == DQUOTE && !m.single && m.depth == 0 then Keep(m.(double := !m.double))
    else if !m.single && !m.double then
      if ch == LPAREN || (ch == DOLLAR && next == Some(LPAREN)) then Keep(m.(depth := m.depth + 1))
      else if ch == RPAREN && m.depth > 0 then Keep(m.(depth := m.depth - 1))
      else if m.depth == 0 && ch == SEMI then Cut(1)
      else if m.depth == 0 && ch == AMP && next == Some(AMP) then Cut(2)
      else if m.depth == 0 && ch == BAR && next == Some(BAR) then Cut(2)
      else Keep(m)
    else Keep(m)
  }

  /** The pieces between the operators, the last one included even when it is blank. */
  function Pieces(s: Text, m: Mode): (r: seq<Text>)
    ensures r != []
    decreases |s|
  {
    if s == [] then [[]]
    else
      match Step(m, s[0], At(s, 1))
      case Keep(m') => Attach([s[0]], Pieces(s[1..], m'))
      case Cut(w) => [[]] + Pieces(s[w..], m)
  }

  /** The operators that were cut out. */
  function Operators(s: Text, m: Mode): (r: seq<Text>)
    ensures |r| == |Pieces(s, m)| - 1
    decreases |s|
  {
    if s == [] then []
    else
      match Step(m, s[0], At(s, 1))
      case Keep(m') => Operators(s[1..], m')
      case Cut(w) => [s[..w]] + Operators(s[w..], m)
  }

  /** The mode in which the scanner reaches the end. */
  function EndMode(s: Text, m: Mode): Mode
    decreases |s|
  {
    if s == [] then m
    else
      match Step(m, s[0], At(s, 1))
      case Keep(m') => EndMode(s[1..], m')
      case Cut(w) => EndMode(s[w..], m)
  }

  function SplitChain(command: Text): seq<Text> {
    DropBlankTail(Pieces(command, START))
  }

  /** Pieces and operators in turn. */
  function Weave(pieces: seq<Text>, ops: seq<Text>): Text
    requires |pieces| == |ops| + 1
  {
    if ops == [] then pieces[0] else pieces[0] + ops[0] + Weave(pieces[1..], ops[1..])
  }

  lemma WeaveAttach(x: Text, pieces: seq<Text>, ops: seq<Text>)
    requires |pieces| == |ops| + 1
    ensures Weave(Attach(x, pieces), ops) == x + Weave(pieces, ops)
  {
    var r := Attach(x, pieces);
    assert r[1..] == pieces[1..];
    if ops != [] {
      assert (x + pieces[0]) + ops[0] + Weave(pieces[1..], ops[1..])
        == x + (pieces[0] + ops[0] + Weave(pieces[1..], ops[1..]));
    }
  }

  ghost predicate IsOperator(op: Text) {
    op == [SEMI] || op == [AMP, AMP] || op == [BAR, BAR]
  }

  /** Nothing is lost: weaving the removed operators back in rebuilds the command. */
  lemma {:induction false} ChainConserved(s: Text, m: Mode)
    ensures Weave(Pieces(s, m), Operators(s, m)) == s
    ensures forall k :: 0 <= k < |Operators(s, m)| ==>
      IsOperator(Operators(s, m)[k])
    decreases |s|
  {
    if s != [] {
      match Step(m, s[0], At(s, 1))
      case Keep(m') =>
        ChainConserved(s[1..], m');
        WeaveAttach([s[0]], Pieces(s[1..], m'), Operators(s[1..], m'));
      case Cut(w) =>
        ChainConserved(s[w..], m);
        WeaveCut(s[..w], Pieces(s[w..], m), Operators(s[w..], m));
        CutIsOperator(s, m, w);
    }
  }

  lemma CutIsOperator(s: Text, m: Mode, w: nat)
    requires s != [] && Step(m, s[0], At(s, 1)) == Cut(w)
    ensures w <= |s| && s == s[..w] + s[w..] && IsOperator(s[..w])
  {
    assert s[..w] == if w == 1 then [SEMI] else [s[0], s[0]];
  }

  lemma WeaveCut(op: Text, pieces: seq<Text>, ops: seq<Text>)
    requires |pieces| == |ops| + 1
    ensures Weave([[]] + pieces, [op] + ops) == op + Weave(pieces, ops)
  {
    assert ([[]] + pieces)[1..] == pieces && ([op] + ops)[1..] == ops;
    assert [] + op == op;
  }

  predicate IsOperatorUnit(u: CodeUnit) {
    u == SEMI || u == AMP || u == BAR
  }

  /** Looking ahead to an operator decides like looking at the end, unless it completes one. */
  lemma LookaheadAtEnd(m: Mode, ch: CodeUnit, next: CodeUnit)
    requires next != LPAREN && !(m == START && ch == next && (ch == AMP || ch == BAR))
    ensures Step(m, ch, Some(next)) == Step(m, ch, None)
  { }

  /** Scanning the first piece on its own cuts nothing, and when an operator followed it, the
      scanner was outside quotes and parentheses there. */
  lemma {:induction false} FirstPieceAlone(s: Text, m: Mode)
    ensures var p := Pieces(s, m)[0];
      Pieces(p, m) == [p] && (|Pieces(s, m)| > 1 ==> EndMode(p, m) == START)
    decreases |s|
  {
    if s != [] {
      var action := Step(m, s[0], At(s, 1));
      if action.Keep? {
        var m' := action.mode;
        FirstPieceAlone(s[1..], m');
        var q := Pieces(s[1..], m')[0];
        var p := [s[0]] + q;
        assert Pieces(s, m)[0] == p && p[1..] == q;
        FirstPieceStart(s[1..], m');
        if q == [] && |s| > 1 {
          LookaheadAtEnd(m, s[0], s[1]);
        }
        assert Step(m, p[0], At(p, 1)) == action;
      }
    }
  }

  /** The first piece begins like the text, or is empty because an operator comes first. */
  lemma FirstPieceStart(s: Text, m: Mode)
    ensures var q := Pieces(s, m)[0];
      if q != [] then s != [] && q[0] == s[0]
      else s == [] || (Step(m, s[0], At(s, 1)).Cut? && IsOperatorUnit(s[0]) && m == START)
  { }

  /** Every piece is closed: on its own it is a single piece, and an operator follows it only
      outside quotes and parentheses. */
  lemma {:induction false} PiecesClosed(s: Text, m: Mode, k: nat)
    requires k < |Pieces(s, m)|
    ensures var p := Pieces(s, m)[k];
      && (k > 0 ==> Pieces(p, START) == [p])
      && (k == 0 ==> Pieces(p, m) == [p])
      && (k + 1 < |Pieces(s, m)| ==> EndMode(p, if k == 0 then m else START) == START)
    decreases |s|
  {
    if k == 0 {
      FirstPieceAlone(s, m);
    } else {
      match Step(m, s[0], At(s, 1))
      case Keep(m') => PiecesClosed(s[1..], m', k);
      case Cut(w) => PiecesClosed(s[w..], m, k - 1);
    }
  }

  /** Splitting again does nothing: a part that is not blank is returned alone. */
  lemma ChainIdempotent(command: Text, k: nat)
    requires k < |SplitChain(command)| && Trim(SplitChain(command)[k]) != []
    ensures SplitChain(SplitChain(command)[k]) == [SplitChain(command)[k]]
  {
    PiecesClosed(command, START, k);
  }

  lemma LoneUnit(a: Text, m: Mode)
    requires |a| == 1
    ensures Step(m, a[0], None).Keep? ==> Pieces(a, m) == [a]
  {
    assert a[1..] == [] && a == [a[0]] + [];
  }

  /** The scanner's next action in `a` does not depend on `op` and `b` coming after it. */
  lemma StepAcross(a: Text, m: Mode, op: Text, b: Text)
    requires a != [] && IsOperator(op) && !EndsInHalf(a, m, op)
    ensures Step(m, a[0], At(a + op + b, 1)) == Step(m, a[0], At(a, 1))
  {
    if |a| == 1 {
      assert At(a + op + b, 1) == Some(op[0]);
      LoneUnit(a, m);
    }
  }

  lemma OperatorFirst(op: Text, b: Text)
    requires IsOperator(op)
    ensures Pieces(op + b, START) == [[]] + Pieces(b, START)
  {
    var t := op + b;
    assert t[|op|..] == b && Step(START, t[0], At(t, 1)) == Cut(|op|);
  }

  /** With `a` ending outside quotes and parentheses, and not in half of `op`, cutting at `op`
      concatenates the pieces. */
  lemma {:induction false} PiecesAcross(a: Text, m: Mode, op: Text, b: Text)
    requires IsOperator(op) && EndMode(a, m) == START && !EndsInHalf(a, m, op)
    ensures Pieces(a + op + b, m) == Pieces(a, m) + Pieces(b, START)
    decreases |a|
  {
    var t := a + op + b;
    if a == [] {
      assert t == op + b;
      OperatorFirst(op, b);
    } else {
      StepAcross(a, m, op, b);
      DropAcross(a, op, b, 0);
      match Step(m, a[0], At(a, 1))
      case Keep(m') =>
        HalfOfRest(a, m, op, m');
        PiecesAcross(a[1..], m', op, b);
        DropAcross(a, op, b, 1);
        KeepAcross(a, t, a[1..] + op + b, m, m', Pieces(b, START));
      case Cut(w) =>
        HalfAfterCut(a, m, op, w);
        PiecesAcross(a[w..], m, op, b);
        DropAcross(a, op, b, w);
        CutAcross(a, t, a[w..] + op + b, m, w, Pieces(b, START));
    }
  }

  lemma DropAcross(a: Text, op: Text, b: Text, w: nat)
    requires a != [] && w <= |a|
    ensures a + op + b != [] && (a + op + b)[0] == a[0] && (a + op + b)[w..] == a[w..] + op + b
  { }

  lemma KeepAcross(a: Text, t: Text, rest: Text, m: Mode, m': Mode, more: seq<Text>)
    requires a != [] && t != [] && t[0] == a[0] && t[1..] == rest
    requires Step(m, a[0], At(a, 1)) == Step(m, a[0], At(t, 1)) == Keep(m')
    requires Pieces(rest, m') == Pieces(a[1..], m') + more
    ensures Pieces(t, m) == Pieces(a, m) + more
  {
    PiecesKeep(a, a[0], a[1..], m, m');
    PiecesKeep(t, a[0], rest, m, m');
    AttachAppend([a[0]], Pieces(a[1..], m'), more);
  }

  lemma PiecesKeep(s: Text, u: CodeUnit, tail: Text, m: Mode, m': Mode)
    requires s != [] && s[0] == u && s[1..] == tail && Step(m, u, At(s, 1)) == Keep(m')
    ensures Pieces(s, m) == Attach([u], Pieces(tail, m'))
  { }

  lemma CutAcross(a: Text, t: Text, rest: Text, m: Mode, w: nat, more: seq<Text>)
    requires a != [] && t != [] && t[0] == a[0]
    requires Step(m, a[0], At(a, 1)) == Step(m, a[0], At(t, 1)) == Cut(w) && t[w..] == rest
    requires Pieces(rest, m) == Pieces(a[w..], m) + more
    ensures Pieces(t, m) == Pieces(a, m) + more
  {
    PiecesCut(a, a[0], a[w..], m, w);
    PiecesCut(t, a[0], rest, m, w);
    ConsAppend([], Pieces(a[w..], m), more);
  }

  lemma PiecesCut(s: Text, u: CodeUnit, tail: Text, m: Mode, w: nat)
    requires s != [] && s[0] == u && Step(m, u, At(s, 1)) == Cut(w) && s[w..] == tail
    ensures Pieces(s, m) == [[]] + Pieces(tail, m)
  { }

  /** The last piece of `a` ends in the first unit of a two-unit operator. */
  predicate EndsInHalf(a: Text, m: Mode, op: Text) {
    var last := Pieces(a, m)[|Pieces(a, m)| - 1];
    |op| == 2 && last != [] && last[|last| - 1] == op[0]
  }

  lemma HalfOfRest(a: Text, m: Mode, op: Text, m': Mode)
    requires a != [] && Step(m, a[0], At(a, 1)) == Keep(m') && !EndsInHalf(a, m, op)
    ensures !EndsInHalf(a[1..], m', op)
  {
    var p, q := Pieces(a, m), Pieces(a[1..], m');
    assert p == Attach([a[0]], q);
    if |q| > 1 { assert p[|p| - 1] == q[|q| - 1]; }
  }

  lemma HalfAfterCut(a: Text, m: Mode, op: Text, w: nat)
    requires a != [] && Step(m, a[0], At(a, 1)) == Cut(w) && !EndsInHalf(a, m, op)
    ensures !EndsInHalf(a[w..], m, op)
  {
    var p, q := Pieces(a, m), Pieces(a[w..], m);
    assert p == [[]] + q && p[|p| - 1] == q[|q| - 1];
  }

  lemma AttachAppend(x: Text, p: seq<Text>, q: seq<Text>)
    requires p != []
    ensures Attach(x, p + q) == Attach(x, p) + q
  {
    assert (p + q)[1..] == p[1..] + q;
  }

  // ---- Splitting a pipeline.

  datatype Quotes = Quotes(single: bool, double: bool)

  const UNQUOTED := Quotes(false, false)

  predicate IsPipe(q: Quotes, prev: Option<CodeUnit>, ch: CodeUnit, next: Option<CodeUnit>) {
    q == UNQUOTED && ch == BAR && next != Some(BAR) && prev != Some(BAR)
  }

  function Toggle(q: Quotes, ch: CodeUnit): Quotes {
    if ch == SQUOTE && !q.double then q.(single := !q.single)
    else if ch == DQUOTE && !q.single then q.(double := !q.double)
    else q
  }

  /** The stages between the pipes, the last one included even when it is blank. */
  function Stages(s: Text, prev: Option<CodeUnit>, q: Quotes): (r: seq<Text>)
    ensures r != []
  {
    if s == [] then [[]]
    else if IsPipe(q, prev, s[0], At(s, 1)) then [[]] + Stages(s[1..], Some(s[0]), q)
    else Attach([s[0]], Stages(s[1..], Some(s[0]), Toggle(q, s[0])))
  }

  function SplitPipe(command: Text): seq<Text> {
    DropBlankTail(Stages(command, None, UNQUOTED))
  }

  lemma {:induction false} PipesConserved(s: Text, prev: Option<CodeUnit>, q: Quotes)
    ensures Join(Stages(s, prev, q), BAR) == s
  {
    if s != [] {
      if IsPipe(q, prev, s[0], At(s, 1)) {
        PipesConserved(s[1..], Some(s[0]), q);
        var p := Stages(s[1..], Some(s[0]), q);
        assert ([[]] + p)[1..] == p;
      } else {
        PipesConserved(s[1..], Some(s[0]), Toggle(q, s[0]));
        var p := Stages(s[1..], Some(s[0]), Toggle(q, s[0]));
        assert Attach([s[0]], p)[1..] == p[1..];
      }
    }
  }

  /** The first stage on its own, whatever unit other than a bar came before it. */
  lemma {:induction false} FirstStageAlone(s: Text, prev: Option<CodeUnit>, prev': Option<CodeUnit>, q: Quotes)
    requires prev == prev' || (s != [] && s[0] != BAR) || s == []
    ensures var p := Stages(s, prev, q)[0]; Stages(p, prev', q) == [p]
    decreases |s|
  {
    if s != [] && !IsPipe(q, prev, s[0], At(s, 1)) {
      var q' := Toggle(q, s[0]);
      FirstStageAlone(s[1..], Some(s[0]), Some(s[0]), q');
      var r := Stages(s[1..], Some(s[0]), q')[0];
      var p := [s[0]] + r;
      assert Stages(s, prev, q)[0] == p && p[1..] == r;
      FirstStageStart(s[1..], Some(s[0]), q');
      assert !IsPipe(q, prev', s[0], At(p, 1));
    }
  }

  lemma FirstStageStart(s: Text, prev: Option<CodeUnit>, q: Quotes)
    ensures var r := Stages(s, prev, q)[0];
      if r != [] then s != [] && r[0] == s[0]
      else s == [] || (s[0] == BAR && prev != Some(BAR))
  { }

  /** The quotes in which the scanner reaches the end. */
  function EndQuotes(s: Text, q: Quotes): Quotes {
    if s == [] then q else EndQuotes(s[1..], Toggle(q, s[0]))
  }

  lemma {:induction false} FirstStageEnds(s: Text, prev: Option<CodeUnit>, q: Quotes)
    requires |Stages(s, prev, q)| > 1
    ensures EndQuotes(Stages(s, prev, q)[0], q) == UNQUOTED
  {
    if !IsPipe(q, prev, s[0], At(s, 1)) {
      FirstStageEnds(s[1..], Some(s[0]), Toggle(q, s[0]));
      var r := Stages(s[1..], Some(s[0]), Toggle(q, s[0]))[0];
      assert Stages(s, prev, q)[0] == [s[0]] + r && ([s[0]] + r)[1..] == r;
    }
  }

  /** Every stage is closed: on its own it is a single stage, and a pipe follows it only outside quotes. */
  lemma {:induction false} StagesClosed(s: Text, prev: Option<CodeUnit>, q: Quotes, k: nat)
    requires k < |Stages(s, prev, q)|
    ensures var p := Stages(s, prev, q)[k];
      && (if k == 0 then Stages(p, prev, q) == [p] else Stages(p, None, UNQUOTED) == [p])
      && (k + 1 < |Stages(s, prev, q)| ==> EndQuotes(p, if k == 0 then q else UNQUOTED) == UNQUOTED)
    decreases |s|
  {
    if k == 0 {
      FirstStageAlone(s, prev, prev, q);
      if |Stages(s, prev, q)| > 1 { FirstStageEnds(s, prev, q); }
    } else if IsPipe(q, prev, s[0], At(s, 1)) {
      if k == 1 {
        FirstStageAlone(s[1..], Some(s[0]), None, q);
        if |Stages(s[1..], Some(s[0]), q)| > 1 { FirstStageEnds(s[1..], Some(s[0]), q); }
      } else {
        StagesClosed(s[1..], Some(s[0]), q, k - 1);
      }
    } else {
      StagesClosed(s[1..], Some(s[0]), Toggle(q, s[0]), k);
    }
  }

  lemma PipeIdempotent(command: Text, k: nat)
    requires k < |SplitPipe(command)| && Trim(SplitPipe(command)[k]) != []
    ensures SplitPipe(SplitPipe(command)[k]) == [SplitPipe(command)[k]]
  {
    StagesClosed(command, None, UNQUOTED, k);
  }

  predicate StartsWithBar(s: Text) {
    s != [] && s[0] == BAR
  }

  predicate EndsInBar(s: Text) {
    s != [] && s[|s| - 1] == BAR
  }

  /** What comes before a text matters only to a bar at its start. */
  lemma StagesAfter(s: Text, prev: Option<CodeUnit>, prev': Option<CodeUnit>, q: Quotes)
    requires !StartsWithBar(s)
    ensures Stages(s, prev, q) == Stages(s, prev', q)
  { }

  lemma StageCut(s: Text, prev: Option<CodeUnit>, b: Text)
    requires s == [BAR] + b && prev != Some(BAR) && !StartsWithBar(b)
    ensures Stages(s, prev, UNQUOTED) == [[]] + Stages(b, None, UNQUOTED)
  {
    assert s[1..] == b;
    StagesAfter(b, Some(BAR), None, UNQUOTED);
  }

  /** A lone bar outside quotes separates the stages of what is before and after it. */
  lemma {:induction false} StagesAcross(a: Text, prev: Option<CodeUnit>, q: Quotes, b: Text)
    requires EndQuotes(a, q) == UNQUOTED && !EndsInBar(a) && !StartsWithBar(b)
    requires a == [] ==> prev != Some(BAR)
    ensures Stages(a + [BAR] + b, prev, q) == Stages(a, prev, q) + Stages(b, None, UNQUOTED)
  {
    var t := a + [BAR] + b;
    if a == [] {
      StageCut(t, prev, b);
    } else {
      DropAcross(a, [BAR], b, 1);
      assert IsPipe(q, prev, a[0], At(t, 1)) == IsPipe(q, prev, a[0], At(a, 1));
      if IsPipe(q, prev, a[0], At(a, 1)) {
        StagesAcross(a[1..], Some(a[0]), q, b);
        ConsAppend([], Stages(a[1..], Some(a[0]), q), Stages(b, None, UNQUOTED));
      } else {
        StagesAcross(a[1..], Some(a[0]), Toggle(q, a[0]), b);
        AttachAppend([a[0]], Stages(a[1..], Some(a[0]), Toggle(q, a[0])), Stages(b, None, UNQUOTED));
      }
    }
  }

  /** Where one stage ends and the next begins there is a lone bar outside quotes. */
  lemma {:induction false} JointIsPipe(t: Text, prev: Option<CodeUnit>, q: Quotes, x: seq<Text>, y: seq<Text>)
    requires x != [] && y != [] && Stages(t, prev, q) == x + y
    ensures var n := |Join(x, BAR)|;
      && n < |t| && t[n] == BAR && At(t, n + 1) != Some(BAR)
      && (if n == 0 then prev != Some(BAR) else t[n - 1] != BAR)
      && EndQuotes(t[..n], q) == UNQUOTED
    decreases |t|
  {
    if t == [] {
      assert false;
    } else if IsPipe(q, prev, t[0], At(t, 1)) {
      var more := Stages(t[1..], Some(t[0]), q);
      SplitCons([], more, x, y);
      if |x| > 1 {
        JointIsPipe(t[1..], Some(t[0]), q, x[1..], y);
        JointLater(t, q, |Join(x[1..], BAR)|);
      }
    } else {
      var more := Stages(t[1..], Some(t[0]), Toggle(q, t[0]));
      SplitCons([t[0]] + more[0], more[1..], x, y);
      var x' := [more[0]] + x[1..];
      assert x' + y == more;
      JointIsPipe(t[1..], Some(t[0]), Toggle(q, t[0]), x', y);
      assert x'[1..] == x[1..];
      JointLater(t, q, |Join(x', BAR)|);
    }
  }

  lemma SplitCons(first: Text, more: seq<Text>, x: seq<Text>, y: seq<Text>)
    requires x != [] && [first] + more == x + y
    ensures x[0] == first && x[1..] + y == more
  {
    assert x[0] == ([first] + more)[0];
    assert x[1..] + y == ([first] + more)[1..];
  }

  lemma JointLater(t: Text, q: Quotes, n: nat)
    requires n + 1 < |t|
    ensures t[1..][n] == t[n + 1] && At(t[1..], n + 1) == At(t, n + 2)
    ensures n > 0 ==> t[1..][n - 1] == t[n]
    ensures EndQuotes(t[..n + 1], q) == EndQuotes(t[1..][..n], Toggle(q, t[0]))
  {
    assert t[..n + 1][1..] == t[1..][..n];
  }

  /** A bar between two texts separates their stages if and only if it stands outside quotes and touches no
      other bar. */
  lemma BarSeparatesIff(a: Text, b: Text)
    ensures Stages(a + [BAR] + b, None, UNQUOTED) == Stages(a, None, UNQUOTED) + Stages(b, None, UNQUOTED)
      <==> EndQuotes(a, UNQUOTED) == UNQUOTED && !EndsInBar(a) && !StartsWithBar(b)
  {
    var t, x, y := a + [BAR] + b, Stages(a, None, UNQUOTED), Stages(b, None, UNQUOTED);
    if EndQuotes(a, UNQUOTED) == UNQUOTED && !EndsInBar(a) && !StartsWithBar(b) {
      StagesAcross(a, None, UNQUOTED, b);
    }
    if Stages(t, None, UNQUOTED) == x + y {
      JointIsPipe(t, None, UNQUOTED, x, y);
      PipesConserved(a, None, UNQUOTED);
      assert t[..|a|] == a;
      assert At(t, |a| + 1) == At(b, 0);
    }
  }

  // ---- The loops.

  /** What the loops still have to deliver: the parts so far, and the pieces of what is left with
      `current` in front. */
  function Pending(parts: seq<Text>, current: Text, left: seq<Text>): seq<Text>
    requires left != []
  {
    parts + Attach(current, left)
  }

  lemma PendingAtStart(left: seq<Text>)
    requires left != []
    ensures Pending([], [], left) == left
  {
    assert [] + left[0] == left[0];
  }

  lemma PendingAtEnd(parts: seq<Text>, current: Text)
    ensures Pending(parts, current, [[]]) == parts + [current]
  {
    assert current + [] == current;
  }

  lemma PendingKeep(parts: seq<Text>, current: Text, ch: CodeUnit, left: seq<Text>)
    requires left != []
    ensures Pending(parts, current, Attach([ch], left)) == Pending(parts, current + [ch], left)
  {
    AttachTwice(current, [ch], left);
  }

  lemma PendingCut(parts: seq<Text>, current: Text, left: seq<Text>)
    requires left != []
    ensures Pending(parts, current, [[]] + left) == Pending(parts + [current], [], left)
  {
    assert ([[]] + left)[1..] == left;
    assert [] + left[0] == left[0] && current + [] == current;
  }

  /** The state of the chain loop, which has yet to scan `rest`. */
  function Chain(parts: seq<Text>, current: Text, rest: Text, m: Mode): seq<Text> {
    Pending(parts, current, Pieces(rest, m))
  }

  lemma ChainKeep(parts: seq<Text>, current: Text, rest: Text, m: Mode, m': Mode)
    requires rest != [] && Step(m, rest[0], At(rest, 1)) == Keep(m')
    ensures Chain(parts, current, rest, m) == Chain(parts, current + [rest[0]], rest[1..], m')
  {
    PendingKeep(parts, current, rest[0], Pieces(rest[1..], m'));
  }

  lemma ChainCut(parts: seq<Text>, current: Text, rest: Text, m: Mode, w: nat)
    requires rest != [] && Step(m, rest[0], At(rest, 1)) == Cut(w)
    ensures Chain(parts, current, rest, m) == Chain(parts + [current], [], rest[w..], m)
  {
    PendingCut(parts, current, Pieces(rest[w..], m));
  }

  /** What the loop delivers from position `i` on, the last part included even when it is blank. */
  function Scan(parts: seq<Text>, current: Text, command: Text, i: nat, m: Mode): seq<Text>
    requires i <= |command|
    decreases |command| - i
  {
    if i == |command| then parts + [current]
    else
      match Step(m, command[i], At(command, i + 1))
      case Keep(m') => Scan(parts, current + [command[i]], command, i + 1, m')
      case Cut(w) => Scan(parts + [current], [], command, i + w, m)
  }

  lemma {:induction false} ScanIsChain(parts: seq<Text>, current: Text, command: Text, i: nat, m: Mode)
    requires i <= |command|
    ensures Scan(parts, current, command, i, m) == Chain(parts, current, command[i..], m)
    decreases |command| - i
  {
    var rest := command[i..];
    if i == |command| {
      PendingAtEnd(parts, current);
    } else {
      assert rest[0] == command[i] && At(rest, 1) == At(command, i + 1) && rest[1..] == command[i + 1..];
      match Step(m, command[i], At(command, i + 1))
      case Keep(m') =>
        ScanIsChain(parts, current + [command[i]], command, i + 1, m');
        ChainKeep(parts, current, rest, m, m');
      case Cut(w) =>
        assert rest[w..] == command[i + w..];
        ScanIsChain(parts + [current], [], command, i + w, m);
        ChainCut(parts, current, rest, m, w);
    }
  }

  lemma ScanIsPieces(command: Text)
    ensures Scan([], [], command, 0, START) == Pieces(command, START)
  {
    ScanIsChain([], [], command, 0, START);
    assert command[0..] == command;
    PendingAtStart(Pieces(command, START));
  }

  method SplitChainedCommands(command: Text) returns (parts: seq<Text>)
    ensures parts == SplitChain(command)
  {
    parts := [];
    var current: Text := [];
    var inSingle, inDouble, depth := false, false, 0;
    var i := 0;
    ScanIsPieces(command);
    while i < |command|
      invariant 0 <= i <= |command| && depth >= 0
      invariant Scan(parts, current, command, i, Mode(inSingle, inDouble, depth)) == Pieces(command, START)
    {
      var ch, next := command[i], At(command, i + 1);
      if ch == SQUOTE && !inDouble && depth == 0 {
        inSingle := !inSingle;
        current := current + [ch];
      } else if ch == DQUOTE && !inSingle && depth == 0 {
        inDouble := !inDouble;
        current := current + [ch];
      } else if !inSingle && !inDouble {
        if ch == LPAREN || (ch == DOLLAR && next == Some(LPAREN)) {
          depth := depth + 1;
          current := current + [ch];
        } else if ch == RPAREN && depth > 0 {
          depth := depth - 1;
          current := current + [ch];
        } else if depth == 0 && ch == SEMI && !inSingle && !inDouble {
          parts, current := parts + [current], [];
        } else if depth == 0 && ch == AMP && next == Some(AMP) && !inSingle && !inDouble {
          parts, current, i := parts + [current], [], i + 1;
        } else if depth == 0 && ch == BAR && next == Some(BAR) && !inSingle && !inDouble {
          parts, current, i := parts + [current], [], i + 1;
        } else {
          current := current + [ch];
        }
      } else {
        current := current + [ch];
      }
      i := i + 1;
    }
    assert Pieces(command, START) == parts + [current];
    if Trim(current) != [] {
      parts := parts + [current];
    }
  }

  /** The state of the pipeline loop at position `i`. */
  function Pipes(parts: seq<Text>, current: Text, command: Text, i: nat, q: Quotes): seq<Text>
    requires i <= |command|
  {
    Pending(parts, current, Stages(command[i..], if i > 0 then Some(command[i - 1]) else None, q))
  }

  lemma PipesStep(parts: seq<Text>, current: Text, command: Text, i: nat, q: Quotes)
    requires i < |command|
    ensures Pipes(parts, current, command, i, q)
      == if IsPipe(q, if i > 0 then Some(command[i - 1]) else None, command[i], At(command, i + 1))
         then Pipes(parts + [current], [], command, i + 1, q)
         else Pipes(parts, current + [command[i]], command, i + 1, Toggle(q, command[i]))
  {
    var rest := command[i..];
    assert rest[1..] == command[i + 1..] && At(rest, 1) == At(command, i + 1);
    PendingCut(parts, current, Stages(command[i + 1..], Some(command[i]), q));
    PendingKeep(parts, current, command[i], Stages(command[i + 1..], Some(command[i]), Toggle(q, command[i])));
  }

  method SplitPipeline(command: Text) returns (parts: seq<Text>)
    ensures parts == SplitPipe(command)
  {
    parts := [];
    var current: Text := [];
    var inSingle, inDouble := false, false;
    assert Pipes(parts, current, command, 0, UNQUOTED) == Stages(command, None, UNQUOTED) by {
      assert command[0..] == command;
      PendingAtStart(Stages(command, None, UNQUOTED));
    }
    for i := 0 to |command|
      invariant Pipes(parts, current, command, i, Quotes(inSingle, inDouble)) == Stages(command, None, UNQUOTED)
    {
      var ch, next := command[i], At(command, i + 1);
      PipesStep(parts, current, command, i, Quotes(inSingle, inDouble));
      if ch == SQUOTE && !inDouble {
        inSingle := !inSingle;
        current := current + [ch];
      } else if ch == DQUOTE && !inSingle {
        inDouble := !inDouble;
        current := current + [ch];
      } else if !inSingle && !inDouble && ch == BAR && next != Some(BAR) {
        if i > 0 && command[i - 1] == BAR {
          current := current + [ch];
        } else {
          parts, current := parts + [current], [];
        }
      } else {
        current := current + [ch];
      }
    }
    assert command[|command|..] == [];
    PendingAtEnd(parts, current);
    if Trim(current) != [] {
      parts := parts + [current];
    }
  }
}
