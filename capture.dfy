/**
 * `main`: the acquisition chain, the frame loop once every resource is held, the unwinding of every
 * registered guard on the way out, and the mapping of the way `main` ended to its exit code and last line.
 */
module SpoutVideoCapture {
  import opened Wrappers
  import opened ScopeGuard
  import opened Bootstrap
  import opened FramePump

  /** How the `try` block of `main` ended. */
  datatype Termination =
    | Completed                  // the frame loop ended and `return 0` was reached
    | StdException(what: string) // a `std::exception`, such as the `std::runtime_error` of a failed check
    | UnknownException           // any other thrown value

  /** The value `main` returns for each way its `try` block can end. */
  function ExitCode(t: Termination): (code: int)
    ensures code == 0 <==> t.Completed?
    ensures code == 998 <==> t.StdException?
    ensures code == 999 <==> t.UnknownException?
  {
    match t
    case Completed => 0
    case StdException(_) => 998
    case UnknownException => 999
  }

  const ProblemPrefix: string := "Problem detected - "
  const ProblemSuffix: string := ". Exiting."
  const DoneLine: string := "Ok, we are done, exiting..."
  const UnknownLine: string := "Unknown problem detected. Exiting."

  /**
   * The last line `main` prints. A caught `std::exception` is reported as the fixed prefix, its `what ()`
   * text and the fixed suffix; only such a report starts with that prefix.
   */
  function Report(t: Termination): (line: string)
    ensures t.StdException? ==>
      && |line| == |ProblemPrefix| + |t.what| + |ProblemSuffix|
      && line[..|ProblemPrefix|] == ProblemPrefix
      && line[|ProblemPrefix|..|ProblemPrefix| + |t.what|] == t.what
      && line[|ProblemPrefix| + |t.what|..] == ProblemSuffix
    ensures !t.StdException? ==> |line| < |ProblemPrefix| || line[..|ProblemPrefix|] != ProblemPrefix
  {
    match t
    case Completed =>
      assert DoneLine[0] != ProblemPrefix[0];
      DoneLine
    case StdException(what) => ProblemPrefix + what + ProblemSuffix
    case UnknownException =>
      assert UnknownLine[0] != ProblemPrefix[0];
      UnknownLine
  }

  /** How `main` ends for the given OS replies: normally, or with the exception of the first failing check. */
  function Ended(os: OsReplies): Termination {
    match Thrown(os)
    case Some(what) => StdException(what)
    case None => Completed
  }

  /**
   * The checked steps of `main` in order, each successful one declaring its guard; the first failing check
   * throws and ends the chain. Returns the declared guards, still armed, and the exception, if any.
   */
  method Acquire(os: OsReplies) returns (stack: seq<OnExitGuard<Action>>, ghost actions: seq<Action>,
                                         thrown: Option<string>)
    ensures actions == Registered(os) && ArmedStack(stack, actions)
    ensures forall g :: g in stack ==> fresh(g)
    ensures thrown == Thrown(os)
  {
    stack := [];
    actions := [];
    thrown := None;
    var k := 0;
    while k < |Steps| && thrown.None?
      invariant 0 <= k <= |Steps|
      invariant ReachedFrom(os, k) == Reached(os)
      invariant thrown.Some? ==> k == Reached(os) < |Steps| && thrown.value == Message(Steps[k])
      invariant actions == Guards(os, Steps[..k])
      invariant ArmedStack(stack, actions)
      invariant forall g :: g in stack ==> fresh(g)
      decreases |Steps| - k, if thrown.None? then 1 else 0
    {
      var step := Steps[k];
      var r := Outcome(os, step);
      OutcomeOfStep(os, step);
      if r.Failure? {
        thrown := Some(r.error);
      } else {
        GuardsStep(os, k);
        var rel := ReleaseOf(os, step);
        if rel.Some? {
          stack := Declare(stack, actions, rel.value);
          actions := actions + [rel.value];
        }
        k := k + 1;
      }
    }
  }

  /**
   * One run of `main`. Only after a complete acquisition does the frame loop run. Either way every
   * declared guard is destroyed, the last declared first, and the exit code and last line follow from how
   * the `try` block ended.
   */
  method Capture(os: OsReplies, polls: seq<Poll>, gen: nat -> Word)
    returns (exitCode: int, released: seq<Action>, events: seq<Event>, report: string)
    ensures released == Reverse(Registered(os))
    ensures Reached(os) == |Steps| ==> events == PumpEvents(gen, Ticks(polls))
    ensures Reached(os) < |Steps| ==> events == []
    ensures exitCode == ExitCode(Ended(os)) && report == Report(Ended(os))
  {
    var stack, actions, thrown := Acquire(os);
    CompletesIffAllPass(os);
    if thrown.None? {
      var frames;
      events, frames := Pump(polls, gen);
    } else {
      events := [];
    }
    released := Unwind(stack, actions);
    var ended := if thrown.Some? then StdException(thrown.value) else Completed;
    exitCode := ExitCode(ended);
    report := Report(ended);
  }

  /**
   * `main` returns 0 exactly when every checked call passed, and 998 otherwise, since every failing check
   * throws a `std::runtime_error`; 999 is not reachable from the checks.
   */
  lemma {:induction false} ExitCodeOfRun(os: OsReplies)
    ensures ExitCode(Ended(os)) == 0 <==> forall j :: 0 <= j < |Steps| ==> Passes(os, Steps[j])
    ensures ExitCode(Ended(os)) == 998 <==> exists j :: 0 <= j < |Steps| && !Passes(os, Steps[j])
    ensures ExitCode(Ended(os)) != 999
  {
  }

  /**
   * However `main` ends, every guard that was declared runs its action exactly once and no other action
   * runs.
   */
  lemma {:induction false} ReleasedOnce(os: OsReplies)
    ensures forall a :: multiset(Reverse(Registered(os)))[a] == if a in Registered(os) then 1 else 0
  {
    RegisteredDistinct(os);
    DistinctCounts(Registered(os));
    ReverseSameElements(Registered(os));
  }

  /** A failed check is reported with the line and description of the step that failed. */
  lemma {:induction false} FailureReportNamesStep(os: OsReplies, n: nat)
    requires n < |Steps|
    requires forall j :: 0 <= j < n ==> Passes(os, Steps[j])
    requires !Passes(os, Steps[n])
    ensures Report(Ended(os)) == ProblemPrefix + Message(Steps[n]) + ProblemSuffix
    ensures ExitCode(Ended(os)) == 998
  {
  }
}
