/** The whitespace-insensitive output comparison (src/sandbox/run/equal_string.cpp) and where
    its status comes from (src/sandbox/run/run.cpp:62-72). */
module EqualString {
  import opened Sequences
  import opened GroupGraph
  import opened Verdicts
  import opened Grading
  import opened SkipPolicy

  // ---------- Words of a text ----------

  /** isspace in the C locale: space, \t, \n, \v, \f, \r. */
  predicate IsSpace(c: char) {
    c == ' ' || 9 as char <= c <= 13 as char
  }

  /** No other character is whitespace. */
  lemma SixSpaces(c: char)
    ensures IsSpace(c) <==> c as int in {32, 9, 10, 11, 12, 13}
  {}

  predicate AllSpace(s: string) {
    forall c :: c in s ==> IsSpace(c)
  }

  predicate IsWord(s: string) {
    s != "" && forall c :: c in s ==> !IsSpace(c)
  }

  /** The longest prefix without whitespace. */
  function FirstWord(s: string): (w: string)
    ensures w <= s && forall c :: c in w ==> !IsSpace(c)
    ensures |w| < |s| ==> IsSpace(s[|w|])
  {
    if s == "" || IsSpace(s[0]) then "" else [s[0]] + FirstWord(s[1..])
  }

  function Words(s: string): (ws: seq<string>)
    decreases |s|
  {
    if s == "" then []
    else if IsSpace(s[0]) then Words(s[1..])
    else [FirstWord(s)] + Words(s[|FirstWord(s)|..])
  }

  /** gaps[0] words[0] gaps[1] words[1] ... and a last gap. */
  function Layout(words: seq<string>, gaps: seq<string>): string
    requires |gaps| == |words| + 1
  {
    if words == [] then gaps[0] else gaps[0] + words[0] + Layout(words[1..], gaps[1..])
  }

  /** Gaps are whitespace, and not empty between two words. */
  ghost predicate GoodGaps(words: seq<string>, gaps: seq<string>) {
    && |gaps| == |words| + 1
    && (forall i :: 0 <= i < |gaps| ==> AllSpace(gaps[i]))
    && (forall i :: 0 < i < |words| ==> gaps[i] != "")
  }

  lemma {:induction false} WordsSkipGap(gap: string, rest: string)
    requires AllSpace(gap)
    ensures Words(gap + rest) == Words(rest)
  {
    if gap == "" {
      assert gap + rest == rest;
    } else {
      assert (gap + rest)[1..] == gap[1..] + rest;
      WordsSkipGap(gap[1..], rest);
    }
  }

  lemma {:induction false} FirstWordOf(word: string, rest: string)
    requires forall c :: c in word ==> !IsSpace(c)
    requires rest == "" || IsSpace(rest[0])
    ensures FirstWord(word + rest) == word
  {
    if word == "" {
      assert word + rest == rest;
    } else {
      assert (word + rest)[1..] == word[1..] + rest;
      FirstWordOf(word[1..], rest);
    }
  }

  lemma WordsOfPrefix(word: string, rest: string)
    requires IsWord(word) && (rest == "" || IsSpace(rest[0]))
    ensures Words(word + rest) == [word] + Words(rest)
  {
    FirstWordOf(word, rest);
    assert word[0] in word;
    assert (word + rest)[|word|..] == rest && (word + rest)[0] == word[0];
  }

  /** However a list of words is laid out, its words are that list. */
  lemma {:induction false} WordsOfLayout(words: seq<string>, gaps: seq<string>)
    requires GoodGaps(words, gaps) && forall w :: w in words ==> IsWord(w)
    ensures Words(Layout(words, gaps)) == words
    decreases |words|
  {
    if words == [] {
      WordsSkipGap(gaps[0], "");
      assert gaps[0] + "" == gaps[0];
    } else {
      var w, rest := words[0], Layout(words[1..], gaps[1..]);
      assert IsWord(w) && forall x :: x in words[1..] ==> x in words;
      WordsOfLayout(words[1..], gaps[1..]);
      WordsSkipGap(gaps[0], w + rest);
      assert gaps[0] + w + rest == gaps[0] + (w + rest);
      RestStartsWithGap(words[1..], gaps[1..]);
      WordsOfPrefix(w, rest);
    }
  }

  lemma RestStartsWithGap(words: seq<string>, gaps: seq<string>)
    requires |gaps| == |words| + 1 && AllSpace(gaps[0]) && (words != [] ==> gaps[0] != "")
    ensures Layout(words, gaps) == "" || IsSpace(Layout(words, gaps)[0])
  {
    if gaps[0] != "" { assert gaps[0][0] in gaps[0]; }
  }

  /** Every text is a layout of its words, so Words is determined by the layouts. */
  lemma {:induction false} EveryTextIsALayout(s: string) returns (gaps: seq<string>)
    ensures |gaps| == |Words(s)| + 1 && GoodGaps(Words(s), gaps) && Layout(Words(s), gaps) == s
    ensures forall w :: w in Words(s) ==> IsWord(w)
    ensures s != "" && !IsSpace(s[0]) ==> gaps[0] == ""
    ensures s != "" && IsSpace(s[0]) ==> gaps[0] != ""
    decreases |s|
  {
    if s == "" { return [""]; }
    hide GoodGaps, Layout;
    if IsSpace(s[0]) {
      var g := EveryTextIsALayout(s[1..]);
      gaps := [[s[0]] + g[0]] + g[1..];
      WidenGap(Words(s), g, s[0]);
    } else {
      var w := FirstWord(s);
      var g := EveryTextIsALayout(s[|w|..]);
      gaps := [""] + g;
      AddWord(w, Words(s[|w|..]), g);
      assert w + s[|w|..] == s;
    }
  }

  lemma WidenGap(words: seq<string>, gaps: seq<string>, c: char)
    requires GoodGaps(words, gaps) && IsSpace(c)
    ensures GoodGaps(words, [[c] + gaps[0]] + gaps[1..])
    ensures Layout(words, [[c] + gaps[0]] + gaps[1..]) == [c] + Layout(words, gaps)
  {
    hide IsSpace;
    var wider := [[c] + gaps[0]] + gaps[1..];
    assert forall i :: 0 < i < |wider| ==> wider[i] == gaps[i];
    if words != [] {
      assert wider[1..] == gaps[1..];
      assert wider[0] + words[0] + Layout(words[1..], gaps[1..]) == [c] + Layout(words, gaps);
    }
  }

  lemma AddWord(w: string, words: seq<string>, gaps: seq<string>)
    requires GoodGaps(words, gaps) && (words != [] ==> gaps[0] != "")
    ensures GoodGaps([w] + words, [""] + gaps)
    ensures Layout([w] + words, [""] + gaps) == w + Layout(words, gaps)
  {
    hide IsSpace, Words, Layout;
    LayoutCons(w, words, gaps);
    assert forall i :: 0 < i < |[""] + gaps| ==> ([""] + gaps)[i] == gaps[i - 1];
  }

  lemma LayoutCons(w: string, words: seq<string>, gaps: seq<string>)
    requires |gaps| == |words| + 1
    ensures Layout([w] + words, [""] + gaps) == w + Layout(words, gaps)
  {
    var ws, gs := [w] + words, [""] + gaps;
    assert ws[1..] == words && gs[1..] == gaps && gs[0] + ws[0] == w;
  }

  // ---------- Streams ----------

  /** An input stream over a text, with its two flags. */
  class Reader {
    const text: string
    var pos: nat
    var eof: bool
    var fail: bool

    ghost predicate Valid()
      reads this
    {
      pos <= |text| && (eof ==> pos == |text|) && (fail ==> eof)
    }

    ghost function Rest(): (r: string)
      reads this
      requires Valid()
      ensures eof ==> r == ""
    {
      text[pos..]
    }

    /** What is left to happen before the stream stays at its end. */
    ghost function Left(): nat
      reads this
      requires Valid()
    {
      |text| - pos + if eof then 0 else 1
    }

    constructor (text: string)
      ensures Valid() && Rest() == text && this.text == text && !eof
    {
      this.text := text;
      pos, eof, fail := 0, false, false;
    }

    /** Formatted extraction of a string: skips whitespace, then takes characters up to the next
        whitespace or the end; reaching the end sets eof, finding nothing sets fail. */
    method Read() returns (token: string)
      requires Valid()
      modifies this`pos, this`eof, this`fail
      ensures Valid()
      ensures Words(old(Rest())) == [] ==> token == "" && eof && Words(Rest()) == []
      ensures Words(old(Rest())) != [] ==> token == Words(old(Rest()))[0] && token != "" &&
                                           Words(Rest()) == Words(old(Rest()))[1..]
      ensures !old(eof) ==> eof || pos > old(pos)
      ensures old(eof) ==> eof
      ensures pos >= old(pos)
    {
      if eof || fail {
        fail := true;
        return "";
      }
      SkipSpace();
      if pos == |text| {
        eof, fail := true, true;
        return "";
      }
      token := TakeWord();
      if pos == |text| { eof := true; }
    }

    method SkipSpace()
      requires Valid() && !eof
      modifies this`pos
      ensures Valid() && Words(Rest()) == Words(old(Rest())) && old(pos) <= pos
      ensures pos < |text| ==> !IsSpace(text[pos])
    {
      while pos < |text| && IsSpace(text[pos])
        invariant Valid() && old(pos) <= pos
        invariant Words(Rest()) == Words(old(Rest()))
        decreases |text| - pos
      {
        assert Rest()[1..] == text[pos + 1..];
        pos := pos + 1;
      }
    }

    method TakeWord() returns (token: string)
      requires Valid() && !eof && pos < |text| && !IsSpace(text[pos])
      modifies this`pos
      ensures Valid() && token != "" && old(pos) < pos
      ensures Words(old(Rest())) == [token] + Words(Rest())
    {
      var start := pos;
      while pos < |text| && !IsSpace(text[pos])
        invariant Valid() && start <= pos && (pos == start ==> pos < |text| && !IsSpace(text[pos]))
        invariant forall c :: c in text[start..pos] ==> !IsSpace(c)
        decreases |text| - pos
      {
        assert text[start..pos + 1] == text[start..pos] + [text[pos]];
        pos := pos + 1;
      }
      token := text[start..pos];
      assert token + text[pos..] == text[start..];
      WordsOfPrefix(token, text[pos..]);
    }
  }

  // ---------- The verdict on one run ----------

  // What waitpid reports of a child that has ended.
  datatype WaitStatus = Exited(code: int) | Signaled(signal: int)

  const SIGSEGV := 11
  const SIGXCPU := 24

  function InterpretWstatus(w: WaitStatus): Status {
    match w
    case Signaled(sig) =>
      if sig == SIGSEGV then MemoryError else if sig == SIGXCPU then Timeout else RuntimeError
    case Exited(_) => Ok
  }

  /** The verdict: a killed child by its signal, otherwise whether the words are the same. */
  function OutputVerdict(w: WaitStatus, output: string, solution: string): (v: Status)
    ensures v != Skip
  {
    if InterpretWstatus(w) != Ok then InterpretWstatus(w)
    else if Words(output) == Words(solution) then Ok else Failed
  }

  /** The checker's loop terminates and computes the verdict, whichever stream ends first and
      whatever whitespace either text ends in. */
  method CheckOutput(w: WaitStatus, output: string, solution: string) returns (result: Status)
    ensures result == OutputVerdict(w, output, solution)
    ensures w == Signaled(11) ==> result == MemoryError
    ensures w == Signaled(24) ==> result == Timeout
    ensures w.Signaled? && w.signal !in {11, 24} ==> result == RuntimeError
    ensures result == Ok <==> w.Exited? && Words(output) == Words(solution)
    ensures result == Failed <==> w.Exited? && Words(output) != Words(solution)
  {
    hide Words, SameSoFar;
    var out := new Reader(output);
    var sol := new Reader(solution);
    result := InterpretWstatus(w);
    if result == Ok {
      var same := CompareWords(out, sol, output, solution);
      if !same { result := Failed; }
    }
    if out.eof != sol.eof { result := Failed; }
  }

  /** The loop over both streams. */
  method CompareWords(out: Reader, sol: Reader, ghost output: string, ghost solution: string) returns (same: bool)
    requires out.Valid() && sol.Valid() && out != sol && out.Rest() == output && sol.Rest() == solution
    modifies out`pos, out`eof, out`fail, sol`pos, sol`eof, sol`fail
    ensures same <==> Words(output) == Words(solution)
    ensures same ==> out.eof && sol.eof
  {
    hide Words, SameSoFar, Reader.Rest;
    ghost var common: seq<string> := [];
    SameAtStart(output, solution);
    while !out.eof || !sol.eof
      invariant out.Valid() && sol.Valid()
      invariant SameSoFar(output, solution, out.Rest(), sol.Rest(), common)
      decreases out.Left() + sol.Left()
    {
      same, common := CompareOne(out, sol, output, solution, common);
      if !same { return false; }
    }
    SameAtEnd(output, solution, common);
    return true;
  }

  lemma SameAtStart(output: string, solution: string)
    ensures SameSoFar(output, solution, output, solution, [])
  {}

  lemma SameAtEnd(output: string, solution: string, common: seq<string>)
    requires SameSoFar(output, solution, "", "", common)
    ensures Words(output) == Words(solution)
  {}

  /** The body of the loop: one word from either stream. */
  method CompareOne(out: Reader, sol: Reader, ghost output: string, ghost solution: string, ghost common: seq<string>)
    returns (same: bool, ghost longer: seq<string>)
    requires out.Valid() && sol.Valid() && out != sol
    requires SameSoFar(output, solution, out.Rest(), sol.Rest(), common)
    modifies out`pos, out`eof, out`fail, sol`pos, sol`eof, sol`fail
    ensures out.Valid() && sol.Valid()
    ensures if same then SameSoFar(output, solution, out.Rest(), sol.Rest(), longer)
            else Words(output) != Words(solution)
    ensures old(!out.eof || !sol.eof) ==> out.Left() + sol.Left() < old(out.Left() + sol.Left())
  {
    ghost var us, vs := Words(out.Rest()), Words(sol.Rest());
    var a := out.Read();
    var b := sol.Read();
    CompareStep(output, solution, us, vs, common, a, b);
    same := a == b;
    longer := if us != [] then common + [a] else common;
  }

  /** Both texts began with the words in common, and the rests are still to be read. */
  ghost predicate SameSoFar(output: string, solution: string, u: string, v: string, common: seq<string>) {
    Words(output) == common + Words(u) && Words(solution) == common + Words(v)
  }

  function Head(ws: seq<string>): string {
    if ws == [] then "" else ws[0]
  }

  lemma CompareStep(output: string, solution: string, us: seq<string>, vs: seq<string>, common: seq<string>,
                    a: string, b: string)
    requires Words(output) == common + us && Words(solution) == common + vs
    requires a == Head(us) && b == Head(vs) && (us != [] ==> a != "") && (vs != [] ==> b != "")
    ensures a != b ==> Words(output) != Words(solution)
    ensures a == b && us != [] ==> vs != [] && Words(output) == common + [a] + us[1..] &&
                                   Words(solution) == common + [a] + vs[1..]
    ensures a == b && us == [] ==> vs == []
  {
    assert us == (common + us)[|common|..] && vs == (common + vs)[|common|..];
    if us != [] { assert us == [us[0]] + us[1..]; }
    if vs != [] { assert vs == [vs[0]] + vs[1..]; }
  }

  // ---------- As the scheduler's judge ----------

  // Why a test ends without a verdict on its output: no pipe, no child process, no solution file, no
  // usage figures, or the checker's own process ended abnormally or without an answer.
  datatype Fault = NoPipe | NoChild | NoSolution | NoUsage | CheckerDied

  datatype ChildRun =
    | Completed(wait: WaitStatus, output: string, solution: string, timeMs: int, memoryKb: int)
    | Faulted(fault: Fault)

  /** The judge that this checker gives the scheduler; it never answers SKIP. */
  ghost function CheckingJudge(runs: int -> ChildRun): Judge {
    var f := (t: int) => ResultOf(runs(t));
    assert forall t: int :: f(t) == ResultOf(runs(t));
    f
  }

  function ResultOf(r: ChildRun): (c: CaseResult)
    ensures c.status != Skip
    ensures c.status == Ok <==> Matches(r)
  {
    match r
    case Completed(wait, output, solution, timeMs, memoryKb) =>
      CaseResult(OutputVerdict(wait, output, solution), timeMs, memoryKb)
    case Faulted(_) => SYSTEM_ERROR_RESULT
  }

  /** The child exited and printed the words of the solution. */
  ghost predicate Matches(r: ChildRun) {
    r.Completed? && r.wait.Exited? && Words(r.output) == Words(r.solution)
  }

  /** One test from end to end. */
  method GradeTest(r: ChildRun) returns (result: CaseResult)
    ensures result == ResultOf(r)
    ensures r.Completed? && r.wait == Signaled(11) ==> result.status == MemoryError
    ensures r.Completed? && r.wait == Signaled(24) ==> result.status == Timeout
    ensures r.Completed? && r.wait.Signaled? && r.wait.signal !in {11, 24} ==> result.status == RuntimeError
    ensures r.Completed? ==> result.timeMs == r.timeMs && result.memoryKb == r.memoryKb
    ensures r.Faulted? ==> result == CaseResult(SystemError, 0, 0)
    ensures result.status == Ok <==> Matches(r)
    ensures result.status == Failed <==> r.Completed? && r.wait.Exited? && Words(r.output) != Words(r.solution)
  {
    match r
    case Completed(wait, output, solution, timeMs, memoryKb) =>
      var status := CheckOutput(wait, output, solution);
      result := CaseResult(status, timeMs, memoryKb);
    case Faulted(_) =>
      result := SYSTEM_ERROR_RESULT;
  }

  /** Group d has a say in the verdict of group g: it is g, or g needs it and SKIP_GROUP is on. */
  ghost predicate HasSay(s: Session, g: string, d: string) {
    d == g || (s.policy.skipGroup && DependsOn(s.groups, g, d))
  }

  /** From end to end, under every policy: a group passes exactly when every test of the groups
      that have a say, counted for the first group to list it, exited and printed the solution's
      words. Under SKIP_GROUP the lists must not let a test escape. */
  lemma GroupPassesIffOutputsMatch(s: Session, runs: int -> ChildRun, i: nat)
    requires s.Valid() && i < |s.order| && s.order[i] in s.groups && s.judge == CheckingJudge(runs)
    requires s.policy.skipGroup ==> NoEscapingTest(s.groups, s.order)
    ensures s.Status(s.order[i]) == Ok <==>
            forall j: nat, t ::
              j < |s.order| && HasSay(s, s.order[i], s.order[j]) && Owns(s.groups, s.order, j, t) ==> Matches(runs(t))
  {
    forall t ensures s.judge(t).status == Ok <==> Matches(runs(t)) {}
    OkIffSayPasses(s, i);
    hide DependsOn, NoEscapingTest, Matches;
  }

  lemma OkIffSayPasses(s: Session, i: nat)
    requires s.Valid() && i < |s.order| && s.order[i] in s.groups
    requires s.policy.skipGroup ==> NoEscapingTest(s.groups, s.order)
    ensures s.Status(s.order[i]) == Ok <==>
            forall j: nat | j < |s.order| && HasSay(s, s.order[i], s.order[j]) ::
              OwnTestsPass(s.groups, s.order, j, s.judge)
  {
    if s.policy.skipGroup {
      OkIffNeededPass(s, i);
    } else {
      OkIffOwnTestsPass(s, i);
      hide Session.Status, OwnTestsPass, DependsOn;
      forall j: nat | j < |s.order| ensures s.order[j] == s.order[i] <==> j == i {}
    }
  }

  lemma OkIffNeededPass(s: Session, i: nat)
    requires s.Valid() && i < |s.order| && s.order[i] in s.groups
    requires s.policy.skipGroup && NoEscapingTest(s.groups, s.order)
    ensures s.Status(s.order[i]) == Ok <==> NeededOwnTestsPass(s.groups, s.order, i, s.judge)
  {
    SkipPreservesVerdictsIff(s.groups, s.order, s.policy);
    assert VerdictsPreserved(s.groups, s.order, s.policy, s.judge);
    AllNeededOkIff(s.groups, s.judge, s.order, i);
    hide NeededOwnTestsPass, AllNeededOk, NoEscapingTest, Session.Status;
  }

  /** With disjoint lists: its own tests and, under SKIP_GROUP, those of all groups it needs. */
  lemma DisjointGroupPassesIffOutputsMatch(s: Session, runs: int -> ChildRun, g: string)
    requires s.Valid() && g in s.groups && s.judge == CheckingJudge(runs) && DisjointTests(s.groups)
    ensures s.Status(g) == Ok <==>
            forall d, t | d in s.groups && t in s.groups[d].tests && HasSay(s, g, d) :: Matches(runs(t))
  {
    var i := IndexOf(s.order, g);
    DisjointNothingEscapes(s.groups, s.order);
    GroupPassesIffOutputsMatch(s, runs, i);
    forall j: nat, t | j < |s.order|
      ensures Owns(s.groups, s.order, j, t) <==> t in s.groups[s.order[j]].tests
    {
      DisjointOwns(s, j, t);
    }
    hide DisjointTests, NoEscapingTest, HasSay, Owns, Matches, CheckingJudge;
    forall d | d in s.groups ensures exists j: nat :: j < |s.order| && s.order[j] == d {
      assert s.order[IndexOf(s.order, d)] == d;
    }
  }

  lemma DisjointOwns(s: Session, j: nat, t: int)
    requires s.Valid() && DisjointTests(s.groups) && j < |s.order|
    ensures s.order[j] in s.groups
    ensures Owns(s.groups, s.order, j, t) <==> t in s.groups[s.order[j]].tests
  {
    assert s.order[j] in Elems(s.order);
    if t in s.groups[s.order[j]].tests { DisjointOwner(s.groups, s.order, j, t); }
  }
}
