/** Unity's test runner with long jumps: the flags of the current test, the run counters, and
    the control flow of a test with its set-up and tear-down. */
module TestRunner {
  import opened NumbersWithin

  /** A call a test body makes.  `Message` and `PassNow` touch no flag; `PassNow` jumps out. */
  datatype Call =
    | AssertWithin(delta: Uint64, expected: Int64, actual: Int64, signed: bool)
    | FailNow
    | IgnoreNow
    | Message
    | PassNow

  datatype Test = Test(setUp: seq<Call>, body: seq<Call>, tearDown: seq<Call>)

  datatype Flags = Flags(failed: bool, ignored: bool)

  datatype Verdict = Passed | Failed | Ignored

  // ---------- What one call does ----------

  predicate Raised(f: Flags) {
    f.failed || f.ignored
  }

  /** Whether the call jumps out of the protected block. */
  predicate Aborts(f: Flags, c: Call) {
    match c
    case AssertWithin(delta, expected, actual, signed) =>
      Raised(f) || DeltaExceeded(delta, expected, actual, signed)
    case FailNow => true
    case IgnoreNow => true
    case Message => false
    case PassNow => true
  }

  function AfterCall(f: Flags, c: Call): Flags {
    if Raised(f) then f
    else match c
         case AssertWithin(delta, expected, actual, signed) =>
           Flags(DeltaExceeded(delta, expected, actual, signed), false)
         case FailNow => Flags(true, false)
         case IgnoreNow => Flags(false, true)
         case Message => f
         case PassNow => f
  }

  /** The flags after a body, which ends at its first jump. */
  function AfterBody(f: Flags, body: seq<Call>): Flags
    decreases |body|
  {
    if body == [] then f
    else if Aborts(f, body[0]) then AfterCall(f, body[0])
    else AfterBody(AfterCall(f, body[0]), body[1..])
  }

  const CLEAR := Flags(false, false)

  /** The flags when a test is concluded. */
  function AfterTest(t: Test): Flags {
    AfterBody(AfterBody(CLEAR, t.setUp + t.body), t.tearDown)
  }

  function VerdictOf(f: Flags): Verdict {
    if f.ignored then Ignored else if f.failed then Failed else Passed
  }

  // ---------- An independent reading ----------

  /** Which calls jump out of a test that has raised no flag: those that fail, ignore or pass
      it outright, and a check whose numbers are further apart than allowed. */
  predicate Jumps(c: Call) {
    match c
    case AssertWithin(delta, expected, actual, signed) =>
      (if signed then Abs(actual - expected) else Abs(ToUint(actual) - ToUint(expected))) > delta
    case Message => false
    case _ => true
  }

  /** The code's own test for that, and the flag it leaves. */
  lemma JumpsExactly(c: Call)
    ensures Aborts(CLEAR, c) <==> Jumps(c)
    ensures AfterCall(CLEAR, c).failed <==> Jumps(c) && (c.AssertWithin? || c.FailNow?)
    ensures AfterCall(CLEAR, c).ignored <==> c.IgnoreNow?
  {
    if c.AssertWithin? { DeltaExact(c.delta, c.expected, c.actual, c.signed); }
  }

  /** The position of the first call that jumps out when no flag is raised, or the length. */
  function FirstJump(body: seq<Call>): (i: nat)
    ensures i <= |body| && (i < |body| ==> Jumps(body[i]))
    ensures forall k :: 0 <= k < i ==> !Jumps(body[k])
  {
    if body == [] || Jumps(body[0]) then 0 else 1 + FirstJump(body[1..])
  }

  /** What the first jump of a body says about the test. */
  function BodyVerdict(body: seq<Call>): Verdict {
    var i := FirstJump(body);
    if i == |body| || body[i].PassNow? then Passed
    else if body[i].IgnoreNow? then Ignored else Failed
  }

  lemma {:induction false} BodyDecides(body: seq<Call>)
    ensures VerdictOf(AfterBody(CLEAR, body)) == BodyVerdict(body)
    ensures !(AfterBody(CLEAR, body).failed && AfterBody(CLEAR, body).ignored)
  {
    if body != [] {
      JumpsExactly(body[0]);
      hide Aborts, AfterCall, Jumps;
      if !Jumps(body[0]) {
        assert AfterCall(CLEAR, body[0]) == CLEAR;
        BodyDecides(body[1..]);
      }
    }
  }

  /** A raised flag stays as it is until the test is concluded. */
  lemma {:induction false} FlagsStay(f: Flags, body: seq<Call>)
    requires Raised(f)
    ensures AfterBody(f, body) == f
    decreases |body|
  {
    if body != [] { FlagsStay(f, body[1..]); }
  }

  /** The first jump of set-up and body decides a test, and if that one raises no flag the
      first jump of the tear-down does; no test is both failed and ignored. */
  lemma TestDecided(t: Test)
    ensures VerdictOf(AfterTest(t)) ==
            if BodyVerdict(t.setUp + t.body) != Passed then BodyVerdict(t.setUp + t.body)
            else BodyVerdict(t.tearDown)
    ensures !(AfterTest(t).failed && AfterTest(t).ignored)
  {
    var f := AfterBody(CLEAR, t.setUp + t.body);
    BodyDecides(t.setUp + t.body);
    BodyDecides(t.tearDown);
    if Raised(f) {
      FlagsStay(f, t.tearDown);
    } else {
      assert f == CLEAR;
    }
  }

  // ---------- Counting ----------

  function TestVerdict(t: Test): Verdict {
    VerdictOf(AfterTest(t))
  }

  function Count(tests: seq<Test>, v: Verdict): nat {
    if tests == [] then 0
    else Count(tests[..|tests| - 1], v) + (if TestVerdict(tests[|tests| - 1]) == v then 1 else 0)
  }

  lemma {:induction false} CountsAddUp(tests: seq<Test>)
    ensures Count(tests, Passed) + Count(tests, Failed) + Count(tests, Ignored) == |tests|
  {
    if tests != [] { CountsAddUp(tests[..|tests| - 1]); }
  }

  // ---------- The runner ----------

  class Unity {
    var numberOfTests: nat
    var testFailures: nat
    var testIgnores: nat
    var currentTestFailed: bool
    var currentTestIgnored: bool
    var passLines: nat
    ghost var tearDowns: nat

    ghost function Current(): Flags
      reads this
    {
      Flags(currentTestFailed, currentTestIgnored)
    }

    constructor ()
      ensures Zeroed()
    {
      numberOfTests, testFailures, testIgnores, passLines, tearDowns := 0, 0, 0, 0, 0;
      currentTestFailed, currentTestIgnored := false, false;
    }

    ghost predicate Zeroed()
      reads this
    {
      numberOfTests == testFailures == testIgnores == passLines == tearDowns == 0 && Current() == CLEAR
    }

    method Begin()
      modifies this
      ensures Zeroed()
    {
      numberOfTests, testFailures, testIgnores, passLines, tearDowns := 0, 0, 0, 0, 0;
      currentTestFailed, currentTestIgnored := false, false;
    }

    method Perform(c: Call) returns (aborted: bool)
      modifies this`currentTestFailed, this`currentTestIgnored
      ensures Current() == AfterCall(old(Current()), c) && aborted == Aborts(old(Current()), c)
    {
      match c {
        case AssertWithin(delta, expected, actual, signed) =>
          if currentTestFailed || currentTestIgnored { return true; }
          currentTestFailed := DeltaExceeded(delta, expected, actual, signed);
          return currentTestFailed;
        case FailNow =>
          if currentTestFailed || currentTestIgnored { return true; }
          currentTestFailed := true;
          return true;
        case IgnoreNow =>
          if currentTestFailed || currentTestIgnored { return true; }
          currentTestIgnored := true;
          return true;
        case Message => return false;
        case PassNow => return true;
      }
    }

    /** Runs a body inside a protected block: a jump ends the block. */
    method Protected(body: seq<Call>)
      modifies this`currentTestFailed, this`currentTestIgnored
      ensures Current() == AfterBody(old(Current()), body)
    {
      for i := 0 to |body|
        invariant AfterBody(Current(), body[i..]) == AfterBody(old(Current()), body)
      {
        assert body[i..][0] == body[i] && body[i..][1..] == body[i + 1..];
        var aborted := Perform(body[i]);
        if aborted { return; }
      }
    }

    method ConcludeTest()
      modifies this
      ensures Current() == CLEAR && numberOfTests == old(numberOfTests) && tearDowns == old(tearDowns)
      ensures var v := VerdictOf(old(Current()));
              testIgnores == old(testIgnores) + (if v == Ignored then 1 else 0) &&
              testFailures == old(testFailures) + (if v == Failed then 1 else 0) &&
              passLines == old(passLines) + (if v == Passed then 1 else 0)
    {
      if currentTestIgnored {
        testIgnores := testIgnores + 1;
      } else if !currentTestFailed {
        passLines := passLines + 1;
      } else {
        testFailures := testFailures + 1;
      }
      currentTestFailed, currentTestIgnored := false, false;
    }

    method DefaultTestRun(t: Test)
      requires Current() == CLEAR
      modifies this
      ensures Current() == CLEAR && numberOfTests == old(numberOfTests) + 1 && tearDowns == old(tearDowns) + 1
      ensures testIgnores == old(testIgnores) + (if TestVerdict(t) == Ignored then 1 else 0)
      ensures testFailures == old(testFailures) + (if TestVerdict(t) == Failed then 1 else 0)
      ensures passLines == old(passLines) + (if TestVerdict(t) == Passed then 1 else 0)
    {
      numberOfTests := numberOfTests + 1;
      Protected(t.setUp + t.body);
      tearDowns := tearDowns + 1;
      Protected(t.tearDown);
      ConcludeTest();
    }

    method End() returns (failures: nat)
      ensures failures == testFailures
    {
      failures := testFailures;
    }

    /** A whole run: each test is counted once, as passed, failed or ignored by its verdict;
        the tear-down runs once a test; and the run returns the number of failed tests. */
    method RunAll(tests: seq<Test>) returns (failures: nat)
      modifies this
      ensures numberOfTests == |tests| == passLines + testFailures + testIgnores
      ensures testFailures == Count(tests, Failed) && testIgnores == Count(tests, Ignored)
      ensures failures == Count(tests, Failed) && tearDowns == |tests|
    {
      Begin();
      for i := 0 to |tests|
        invariant Current() == CLEAR && numberOfTests == i && tearDowns == i
        invariant testFailures == Count(tests[..i], Failed) && testIgnores == Count(tests[..i], Ignored)
        invariant passLines == Count(tests[..i], Passed)
      {
        assert tests[..i + 1][..i] == tests[..i];
        DefaultTestRun(tests[i]);
      }
      assert tests[..|tests|] == tests;
      CountsAddUp(tests);
      failures := End();
    }
  }
}
