/** Which lines filters/colorize.c takes for code, diffs and signatures, over a whole run. */
module ColorizeStates {
  import opened ColorizeText
  import opened ColorizeLines

  /** The state of the line machine before each line, and after the last one. */
  function StatesFrom(env: Env, start: State, lines: seq<string>): (states: seq<State>)
    ensures |states| == |lines| + 1
  {
    if lines == [] then [start]
    else
      var n := |lines| - 1;
      var before := StatesFrom(env, start, lines[..n]);
      before + [LineStep(env, lines[n], before[n]).next]
  }

  function StateAfter(env: Env, start: State, lines: seq<string>): State {
    StatesFrom(env, start, lines)[|lines|]
  }

  predicate OpensCode(env: Env, state: State, s: string) {
    Outside(state) && env.codeBlockStart(s)
  }

  predicate OpensDiff(env: Env, state: State, s: string) {
    Outside(state) && !env.codeBlockStart(s) && (env.diffStart(s) || s == "---")
  }

  predicate OpensSignature(env: Env, state: State, s: string) {
    s == "-- " && (state == DIFF || (Outside(state) && !env.codeBlockStart(s) && !env.diffStart(s)))
  }

  /** A line of a diff: anything but a signature delimiter and text that starts in the first column. */
  predicate GoesOnDiff(env: Env, s: string) {
    && s != "-- "
    && (s == "" || s[0] == ' ' || s[0] == '+' || s[0] == '-' || "@@ " <= s || env.diffMeta(s) || env.diffStat(s))
  }

  /** Which lines lead into each of these states, and which keep it. */
  lemma NextIs(env: Env, s: string, state: State)
    ensures var next := LineStep(env, s, state).next;
      && (next == CODE_BLOCK <==> OpensCode(env, state, s) || (state == CODE_BLOCK && s != "```"))
      && (next == DIFF <==> OpensDiff(env, state, s) || (state == DIFF && GoesOnDiff(env, s)))
      && (next == SIGNATURE <==> OpensSignature(env, state, s) || state == SIGNATURE)
      && (next == INIT ==> state == INIT)
  {
  }

  // ---------- code blocks ----------

  /** Line `i` has opened a code block, and no closing line has come since. */
  ghost predicate CodeSince(env: Env, lines: seq<string>, states: seq<State>, i: nat)
    requires |states| == |lines| + 1
  {
    && i < |lines|
    && OpensCode(env, states[i], lines[i])
    && forall j :: i < j < |lines| ==> lines[j] != "```"
  }

  ghost predicate SomeCode(env: Env, lines: seq<string>, states: seq<State>)
    requires |states| == |lines| + 1
  {
    exists i: nat :: CodeSince(env, lines, states, i)
  }

  lemma CodeSinceLast(env: Env, lines: seq<string>, states: seq<State>, i: nat)
    requires i < |lines| && |states| == |lines| + 1
    ensures var n := |lines| - 1;
      CodeSince(env, lines, states, i) <==>
        if i == n then OpensCode(env, states[n], lines[n])
        else CodeSince(env, lines[..n], states[..n + 1], i) && lines[n] != "```"
  {
    var n := |lines| - 1;
    assert forall j :: 0 <= j < n ==> lines[..n][j] == lines[j];
  }

  lemma SomeCodeLast(env: Env, lines: seq<string>, states: seq<State>)
    requires lines != [] && |states| == |lines| + 1
    ensures var n := |lines| - 1;
      SomeCode(env, lines, states) <==>
        || OpensCode(env, states[n], lines[n])
        || (lines[n] != "```" && SomeCode(env, lines[..n], states[..n + 1]))
  {
    var n := |lines| - 1;
    CodeSinceLast(env, lines, states, n);
    if i: nat :| CodeSince(env, lines, states, i) {
      CodeSinceLast(env, lines, states, i);
    }
    var front, before := lines[..n], states[..n + 1];
    if i: nat :| CodeSince(env, front, before, i) {
      CodeSinceLast(env, lines, states, i);
    }
  }

  ghost predicate AllStayCode(lines: seq<string>) {
    forall j :: 0 <= j < |lines| ==> lines[j] != "```"
  }

  lemma AllStayCodeLast(lines: seq<string>)
    requires lines != []
    ensures var n := |lines| - 1;
      AllStayCode(lines) <==> AllStayCode(lines[..n]) && lines[n] != "```"
  {
    assert forall j :: 0 <= j < |lines| - 1 ==> lines[..|lines| - 1][j] == lines[j];
  }

  /** The machine is in a code block just when some line has opened one and no closing line has come since. */
  lemma {:induction false} InCodeIff(env: Env, start: State, lines: seq<string>)
    ensures StateAfter(env, start, lines) == CODE_BLOCK <==>
      || (start == CODE_BLOCK && AllStayCode(lines))
      || SomeCode(env, lines, StatesFrom(env, start, lines))
  {
    if lines != [] {
      var n := |lines| - 1;
      var states := StatesFrom(env, start, lines);
      assert states[..n + 1] == StatesFrom(env, start, lines[..n]);
      InCodeIff(env, start, lines[..n]);
      SomeCodeLast(env, lines, states);
      NextIs(env, lines[n], states[n]);
      AllStayCodeLast(lines);
    }
  }

  // ---------- diffs ----------

  /** Line `i` has opened a diff, and all lines since go on with it. */
  ghost predicate DiffSince(env: Env, lines: seq<string>, states: seq<State>, i: nat)
    requires |states| == |lines| + 1
  {
    && i < |lines|
    && OpensDiff(env, states[i], lines[i])
    && forall j :: i < j < |lines| ==> GoesOnDiff(env, lines[j])
  }

  ghost predicate SomeDiff(env: Env, lines: seq<string>, states: seq<State>)
    requires |states| == |lines| + 1
  {
    exists i: nat :: DiffSince(env, lines, states, i)
  }

  lemma DiffSinceLast(env: Env, lines: seq<string>, states: seq<State>, i: nat)
    requires i < |lines| && |states| == |lines| + 1
    ensures var n := |lines| - 1;
      DiffSince(env, lines, states, i) <==>
        if i == n then OpensDiff(env, states[n], lines[n])
        else DiffSince(env, lines[..n], states[..n + 1], i) && GoesOnDiff(env, lines[n])
  {
    var n := |lines| - 1;
    assert forall j :: 0 <= j < n ==> lines[..n][j] == lines[j];
  }

  lemma SomeDiffLast(env: Env, lines: seq<string>, states: seq<State>)
    requires lines != [] && |states| == |lines| + 1
    ensures var n := |lines| - 1;
      SomeDiff(env, lines, states) <==>
        || OpensDiff(env, states[n], lines[n])
        || (GoesOnDiff(env, lines[n]) && SomeDiff(env, lines[..n], states[..n + 1]))
  {
    var n := |lines| - 1;
    DiffSinceLast(env, lines, states, n);
    if i: nat :| DiffSince(env, lines, states, i) {
      DiffSinceLast(env, lines, states, i);
    }
    var front, before := lines[..n], states[..n + 1];
    if i: nat :| DiffSince(env, front, before, i) {
      DiffSinceLast(env, lines, states, i);
    }
  }

  ghost predicate AllStayDiff(env: Env, lines: seq<string>) {
    forall j :: 0 <= j < |lines| ==> GoesOnDiff(env, lines[j])
  }

  lemma AllStayDiffLast(env: Env, lines: seq<string>)
    requires lines != []
    ensures var n := |lines| - 1;
      AllStayDiff(env, lines) <==> AllStayDiff(env, lines[..n]) && GoesOnDiff(env, lines[n])
  {
    assert forall j :: 0 <= j < |lines| - 1 ==> lines[..|lines| - 1][j] == lines[j];
  }

  /** It is in a diff just when some line has opened one and all since have gone on with it. */
  lemma {:induction false} InDiffIff(env: Env, start: State, lines: seq<string>)
    ensures StateAfter(env, start, lines) == DIFF <==>
      || (start == DIFF && AllStayDiff(env, lines))
      || SomeDiff(env, lines, StatesFrom(env, start, lines))
  {
    if lines != [] {
      var n := |lines| - 1;
      var states := StatesFrom(env, start, lines);
      assert states[..n + 1] == StatesFrom(env, start, lines[..n]);
      InDiffIff(env, start, lines[..n]);
      SomeDiffLast(env, lines, states);
      NextIs(env, lines[n], states[n]);
      AllStayDiffLast(env, lines);
    }
  }

  // ---------- signatures ----------

  /** Line `i` has opened a signature. */
  ghost predicate SignatureSince(env: Env, lines: seq<string>, states: seq<State>, i: nat)
    requires |states| == |lines| + 1
  {
    && i < |lines|
    && OpensSignature(env, states[i], lines[i])
  }

  ghost predicate SomeSignature(env: Env, lines: seq<string>, states: seq<State>)
    requires |states| == |lines| + 1
  {
    exists i: nat :: SignatureSince(env, lines, states, i)
  }

  lemma SignatureSinceLast(env: Env, lines: seq<string>, states: seq<State>, i: nat)
    requires i < |lines| && |states| == |lines| + 1
    ensures var n := |lines| - 1;
      SignatureSince(env, lines, states, i) <==>
        if i == n then OpensSignature(env, states[n], lines[n])
        else SignatureSince(env, lines[..n], states[..n + 1], i)
  {
    var n := |lines| - 1;
    assert forall j :: 0 <= j < n ==> lines[..n][j] == lines[j];
  }

  lemma SomeSignatureLast(env: Env, lines: seq<string>, states: seq<State>)
    requires lines != [] && |states| == |lines| + 1
    ensures var n := |lines| - 1;
      SomeSignature(env, lines, states) <==>
        || OpensSignature(env, states[n], lines[n])
        || SomeSignature(env, lines[..n], states[..n + 1])
  {
    var n := |lines| - 1;
    SignatureSinceLast(env, lines, states, n);
    if i: nat :| SignatureSince(env, lines, states, i) {
      SignatureSinceLast(env, lines, states, i);
    }
    var front, before := lines[..n], states[..n + 1];
    if i: nat :| SignatureSince(env, front, before, i) {
      SignatureSinceLast(env, lines, states, i);
    }
  }

  /** It is in a signature just when some line outside of code has been a signature delimiter: for good. */
  lemma {:induction false} InSignatureIff(env: Env, start: State, lines: seq<string>)
    ensures StateAfter(env, start, lines) == SIGNATURE <==>
      || start == SIGNATURE
      || SomeSignature(env, lines, StatesFrom(env, start, lines))
  {
    if lines != [] {
      var n := |lines| - 1;
      var states := StatesFrom(env, start, lines);
      assert states[..n + 1] == StatesFrom(env, start, lines[..n]);
      InSignatureIff(env, start, lines[..n]);
      SomeSignatureLast(env, lines, states);
      NextIs(env, lines[n], states[n]);
    }
  }
}
