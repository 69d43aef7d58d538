/** Classifying a whole command line by its most dangerous part. The category of a single,
    trimmed, non-blank command is the parameter `core`. */
module BashClassify {
  import opened JsText
  import opened BashSplit

  datatype Category = Read | Write | WriteIrreversible | Dangerous

  function Order(c: Category): nat {
    match c case Read => 0 case Write => 1 case WriteIrreversible => 2 case Dangerous => 3
  }

  function MaxCategory(a: Category, b: Category): Category {
    if Order(a) >= Order(b) then a else b
  }

  // ---- Signals on the whole text.

  const GT: CodeUnit := 62
  const SHELLS: seq<Text> := [[115, 104], [98, 97, 115, 104], [122, 115, 104]]

  predicate IsWord(u: CodeUnit) {
    48 <= u <= 57 || 65 <= u <= 90 || u == 95 || 97 <= u <= 122
  }

  /** One or two `>` from `i` on, with no `>` on either side. */
  predicate RedirectAt(s: Text, i: int) {
    && 0 <= i < |s| && s[i] == GT
    && (i == 0 || s[i - 1] != GT)
    && (i + 1 == |s| || s[i + 1] != GT || i + 2 == |s| || s[i + 2] != GT)
  }

  predicate HasRedirect(s: Text) {
    exists i :: 0 <= i < |s| && RedirectAt(s, i)
  }

  /** A shell name at `j`, ending at a word boundary. */
  predicate ShellAt(s: Text, j: int) {
    exists k :: 0 <= k < |SHELLS| && WordAt(s, j, SHELLS[k])
  }

  predicate WordAt(s: Text, j: int, w: Text) {
    && 0 <= j && j + |w| <= |s| && s[j..j + |w|] == w
    && (j + |w| == |s| || !IsWord(s[j + |w|]))
  }

  /** Blank up to `j` and a shell name there. */
  predicate ShellHeadAt(s: Text, j: int) {
    0 <= j <= |s| && (forall i :: 0 <= i < j ==> IsSpace(s[i])) && ShellAt(s, j)
  }

  predicate ShellHead(s: Text) {
    exists j :: 0 <= j <= |s| && ShellHeadAt(s, j)
  }

  /** A bar, blanks, and a shell name. */
  predicate HasPipeToShell(s: Text) {
    exists i :: 0 <= i < |s| && s[i] == BAR && ShellHead(s[i + 1..])
  }

  /** `s` is `a`, one or two `>`, and `b`, with no `>` next to them. */
  predicate ShortRun(s: Text, a: Text, run: Text, b: Text) {
    && s == a + run + b && (run == [GT] || run == [GT, GT])
    && (a == [] || a[|a| - 1] != GT) && (b == [] || b[0] != GT)
  }

  /** A redirect is a run of one or two `>`; longer runs are none. */
  lemma RedirectIffShortRun(s: Text)
    ensures HasRedirect(s) <==> exists a, run, b :: ShortRun(s, a, run, b)
  {
    if i :| 0 <= i < |s| && RedirectAt(s, i) {
      var n := if i + 1 < |s| && s[i + 1] == GT then 2 else 1;
      assert s == s[..i] + s[i..i + n] + s[i + n..];
      assert ShortRun(s, s[..i], s[i..i + n], s[i + n..]);
    }
    if a, run, b :| ShortRun(s, a, run, b) {
      assert RedirectAt(s, |a|);
    }
  }

  /** `s` is blanks, one of the three shell names, and `b`, which does not go on with the word. */
  ghost predicate Invokes(s: Text, gap: Text, shell: Text, b: Text) {
    s == gap + shell + b && Blank(gap) && shell in SHELLS && (b == [] || !IsWord(b[0]))
  }

  lemma ShellHeadInvokes(s: Text) returns (gap: Text, shell: Text, b: Text)
    requires ShellHead(s)
    ensures Invokes(s, gap, shell, b)
  {
    var j :| 0 <= j <= |s| && ShellHeadAt(s, j);
    var k :| 0 <= k < |SHELLS| && WordAt(s, j, SHELLS[k]);
    gap, shell, b := s[..j], SHELLS[k], s[j + |SHELLS[k]|..];
    assert s == gap + shell + b;
  }

  lemma InvokesShellHead(s: Text, gap: Text, shell: Text, b: Text)
    requires Invokes(s, gap, shell, b)
    ensures ShellHead(s)
  {
    var k :| 0 <= k < |SHELLS| && SHELLS[k] == shell;
    WordAfter(gap, shell, b);
    assert WordAt(s, |gap|, SHELLS[k]);
    assert ShellAt(s, |gap|);
    BlankBefore(gap, shell + b);
    assert gap + shell + b == gap + (shell + b);
    assert ShellHeadAt(s, |gap|);
  }

  lemma WordAfter(gap: Text, word: Text, b: Text)
    requires b == [] || !IsWord(b[0])
    ensures WordAt(gap + word + b, |gap|, word)
  { }

  lemma BlankBefore(gap: Text, rest: Text)
    requires Blank(gap)
    ensures forall i :: 0 <= i < |gap| ==> IsSpace((gap + rest)[i])
  { }

  /** `s` is `a`, a bar, and the invocation of a shell. */
  ghost predicate PipedTo(s: Text, a: Text, gap: Text, shell: Text, b: Text) {
    |a| < |s| && s[..|a|] == a && s[|a|] == BAR && Invokes(s[|a| + 1..], gap, shell, b)
  }

  /** A shell pipe is a bar followed by blanks and a shell name. */
  lemma PipeToShellIff(s: Text)
    ensures HasPipeToShell(s) <==> exists a, gap, shell, b :: PipedTo(s, a, gap, shell, b)
  {
    if i :| 0 <= i < |s| && s[i] == BAR && ShellHead(s[i + 1..]) {
      var gap, shell, b := ShellHeadInvokes(s[i + 1..]);
      assert PipedTo(s, s[..i], gap, shell, b);
    }
    if a, gap, shell, b :| PipedTo(s, a, gap, shell, b) {
      InvokesShellHead(s[|a| + 1..], gap, shell, b);
    }
  }

  // ---- The worst stage.

  function ClassifySingle(core: Text -> Category, command: Text): Category {
    var trimmed := Trim(command);
    if trimmed == [] then Read else core(trimmed)
  }

  function WorstStage(core: Text -> Category, stages: seq<Text>): Category {
    if stages == [] then Read
    else MaxCategory(ClassifySingle(core, stages[0]), WorstStage(core, stages[1..]))
  }

  function WorstSegment(core: Text -> Category, segments: seq<Text>): Category {
    if segments == [] then Read
    else MaxCategory(WorstStage(core, SplitPipe(segments[0])), WorstSegment(core, segments[1..]))
  }

  /** The category of a command line: the greatest of its stages, of the shell-pipe signal and
      of the redirect signal. */
  function Classify(core: Text -> Category, command: Text): Category {
    var t := Trim(command);
    Signals(HasPipeToShell(t), WorstSegment(core, SplitChain(t)), HasRedirect(t))
  }

  function Signals(piped: bool, worst: Category, redirected: bool): Category {
    MaxCategory(if piped then Dangerous else Read, MaxCategory(worst, if redirected then Write else Read))
  }

  lemma MaxLaws(a: Category, b: Category, c: Category)
    ensures MaxCategory(a, MaxCategory(b, c)) == MaxCategory(MaxCategory(a, b), c)
    ensures MaxCategory(a, b) == MaxCategory(b, a)
    ensures MaxCategory(a, a) == a && MaxCategory(Read, a) == a && MaxCategory(Dangerous, a) == Dangerous
  { }

  method ClassifyBashCommand(core: Text -> Category, command: Text) returns (r: Category)
    ensures r == Classify(core, command)
  {
    var trimmed := Trim(command);
    if trimmed == [] {
      BlankReads(core);
      return Read;
    }
    if HasPipeToShell(trimmed) {
      return Dangerous;
    }
    var chained := SplitChainedCommands(trimmed);
    var worst := Read;
    for i := 0 to |chained|
      invariant MaxCategory(worst, WorstSegment(core, chained[i..])) == WorstSegment(core, chained)
    {
      var stages := SplitPipeline(chained[i]);
      ghost var before := worst;
      for j := 0 to |stages|
        invariant MaxCategory(worst, WorstStage(core, stages[j..]))
          == MaxCategory(before, WorstStage(core, stages))
      {
        var category := ClassifySingle(core, stages[j]);
        assert stages[j..][1..] == stages[j + 1..];
        MaxLaws(worst, category, WorstStage(core, stages[j + 1..]));
        worst := MaxCategory(worst, category);
      }
      assert chained[i..][1..] == chained[i + 1..];
      MaxLaws(before, WorstStage(core, stages), WorstSegment(core, chained[i + 1..]));
    }
    if HasRedirect(trimmed) && Order(worst) < Order(Write) {
      worst := Write;
    }
    r := worst;
  }

  lemma BlankReads(core: Text -> Category)
    ensures Classify(core, []) == Read
  {
    assert Trim([]) == [];
    assert SplitChain([]) == [];
  }

  // ---- The result is the least category that covers every stage and signal.

  ghost predicate IsStage(command: Text, stage: Text) {
    exists i :: 0 <= i < |SplitChain(Trim(command))| && stage in SplitPipe(SplitChain(Trim(command))[i])
  }

  lemma {:induction false} WorstStageCovers(core: Text -> Category, stages: seq<Text>)
    ensures forall x :: x in stages ==> Order(ClassifySingle(core, x)) <= Order(WorstStage(core, stages))
    ensures WorstStage(core, stages) == Read
      || exists x :: x in stages && ClassifySingle(core, x) == WorstStage(core, stages)
  {
    if stages != [] {
      WorstStageCovers(core, stages[1..]);
      assert stages == [stages[0]] + stages[1..];
      if WorstStage(core, stages) != ClassifySingle(core, stages[0]) && WorstStage(core, stages[1..]) != Read {
        var x :| x in stages[1..] && ClassifySingle(core, x) == WorstStage(core, stages[1..]);
        assert x in stages;
      }
      assert stages[0] in stages;
    }
  }

  lemma {:induction false} WorstSegmentCovers(core: Text -> Category, segments: seq<Text>)
    ensures forall i :: 0 <= i < |segments| ==>
      Order(WorstStage(core, SplitPipe(segments[i]))) <= Order(WorstSegment(core, segments))
    ensures WorstSegment(core, segments) == Read
      || exists i :: 0 <= i < |segments| && WorstStage(core, SplitPipe(segments[i])) == WorstSegment(core, segments)
  {
    if segments != [] {
      WorstSegmentCovers(core, segments[1..]);
      forall i | 0 <= i < |segments|
        ensures Order(WorstStage(core, SplitPipe(segments[i]))) <= Order(WorstSegment(core, segments))
      {
        if i > 0 { assert segments[i] == segments[1..][i - 1]; }
      }
      var rest := segments[1..];
      var worst := WorstSegment(core, rest);
      if WorstSegment(core, segments) != WorstStage(core, SplitPipe(segments[0])) && worst != Read {
        var i :| 0 <= i < |rest| && WorstStage(core, SplitPipe(rest[i])) == worst;
        assert segments[i + 1] == rest[i];
      }
    }
  }

  /** No stage is classified above the command, and a category above every signal is that of
      some stage. */
  lemma ClassifyIsLeastCover(core: Text -> Category, command: Text)
    ensures forall x :: IsStage(command, x) ==> Order(ClassifySingle(core, x)) <= Order(Classify(core, command))
    ensures HasPipeToShell(Trim(command)) ==> Classify(core, command) == Dangerous
    ensures HasRedirect(Trim(command)) ==> Order(Classify(core, command)) >= Order(Write)
    ensures || Classify(core, command) == Read
            || (HasPipeToShell(Trim(command)) && Classify(core, command) == Dangerous)
            || (HasRedirect(Trim(command)) && Classify(core, command) == Write)
            || exists x :: IsStage(command, x) && ClassifySingle(core, x) == Classify(core, command)
  {
    var worst := WorstSegment(core, SplitChain(Trim(command)));
    SignalsCover(HasPipeToShell(Trim(command)), worst, HasRedirect(Trim(command)));
    forall x | IsStage(command, x) ensures Order(ClassifySingle(core, x)) <= Order(Classify(core, command)) {
      StageIsCovered(core, command, x);
    }
    if worst != Read {
      var x := WorstIsAStage(core, command);
    }
  }

  lemma SignalsCover(piped: bool, worst: Category, redirected: bool)
    ensures Order(Signals(piped, worst, redirected)) >= Order(worst)
    ensures piped ==> Signals(piped, worst, redirected) == Dangerous
    ensures redirected ==> Order(Signals(piped, worst, redirected)) >= Order(Write)
    ensures Signals(piped, worst, redirected) == worst || (piped && Signals(piped, worst, redirected) == Dangerous)
      || (redirected && Signals(piped, worst, redirected) == Write)
  { }

  lemma StageIsCovered(core: Text -> Category, command: Text, x: Text)
    requires IsStage(command, x)
    ensures Order(ClassifySingle(core, x)) <= Order(WorstSegment(core, SplitChain(Trim(command))))
  {
    var segments := SplitChain(Trim(command));
    var i :| 0 <= i < |segments| && x in SplitPipe(segments[i]);
    WorstSegmentCovers(core, segments);
    WorstStageCovers(core, SplitPipe(segments[i]));
  }

  lemma WorstIsAStage(core: Text -> Category, command: Text) returns (x: Text)
    requires WorstSegment(core, SplitChain(Trim(command))) != Read
    ensures IsStage(command, x) && ClassifySingle(core, x) == WorstSegment(core, SplitChain(Trim(command)))
  {
    var segments := SplitChain(Trim(command));
    WorstSegmentCovers(core, segments);
    var i :| 0 <= i < |segments| && WorstStage(core, SplitPipe(segments[i])) == WorstSegment(core, segments);
    WorstStageCovers(core, SplitPipe(segments[i]));
    x :| x in SplitPipe(segments[i]) && ClassifySingle(core, x) == WorstStage(core, SplitPipe(segments[i]));
  }
}
