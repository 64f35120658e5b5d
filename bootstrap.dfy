/**
 * The acquisition chain at the start of `main`: eight `CHECK`/`CHECK_HR` calls in a fixed order, six of
 * which register a scope-exit guard for the resource they acquired. A failing check throws, so the guards
 * registered by the earlier steps are exactly the ones that unwind.
 */
module Bootstrap {
  import opened Wrappers
  import opened Checks
  import opened ScopeGuard

  /** The checked calls, in source order. */
  datatype Step =
    | InitializeCom       // CoInitialize (0)
    | CreateWindow        // CreateWindowA ("BUTTON", app_name, ..., 0, 0, 32, 32, ...)
    | GetDc               // GetDC (hwnd)
    | ChoosePixelFormat   // ChoosePixelFormat (hdc, &pfd)
    | SetPixelFormat      // SetPixelFormat (hdc, format, &pfd)
    | CreateGlContext     // wglCreateContext (hdc)
    | MakeCurrent         // wglMakeCurrent (hdc, hglrc)
    | CreateSender        // sender.CreateSender (app_name, width, height)

  const Steps: seq<Step> :=
    [InitializeCom, CreateWindow, GetDc, ChoosePixelFormat, SetPixelFormat, CreateGlContext, MakeCurrent,
     CreateSender]

  /** The release actions the guards own, with the handles their lambdas capture. */
  datatype Action =
    | CoUninitialize
    | DestroyWindow(hwnd: int)
    | ReleaseDc(hwnd: int, hdc: int)
    | DeleteGlContext(hglrc: int)
    | UnselectGlContext(hdc: int)      // wglMakeCurrent (hdc, nullptr)
    | ReleaseSender(graceMs: int)

  /** The sender is released with a 200 ms grace period. */
  const SenderGraceMs := 200

  /** What each checked OS call returned in one run; a null handle or a `FALSE` result is 0. */
  datatype OsReplies = OsReplies(
    coInitialize: HResult,
    window: int,
    dc: int,
    pixelFormat: int,
    pixelFormatSet: int,
    glContext: int,
    madeCurrent: int,
    senderCreated: int)

  /** `__FILE__` as the compiler spells it for the source file. */
  const SourceFile: string := "SpoutVideoCapture.cpp"

  /** The line of the macro use and the description passed to it. */
  function Site(s: Step): (string, string) {
    match s
    case InitializeCom => ("112", "Initialize COM Runtime")
    case CreateWindow => ("116", "Create invisible window for Open GL")
    case GetDc => ("119", "Get device context for Open GL")
    case ChoosePixelFormat => ("132", "Choose pixel format for device context")
    case SetPixelFormat => ("133", "Set pixel format for device context")
    case CreateGlContext => ("135", "Create OpenGL context")
    case MakeCurrent => ("138", "Make OpenGL context current")
    case CreateSender => ("146", "Create Spout sender")
  }

  function Message(s: Step): string {
    AbortMessage(SourceFile, Site(s).0, Site(s).1)
  }

  /** The result of the checked call of step `s`: its value, or the message it throws. */
  function Outcome(os: OsReplies, s: Step): Result<int, string> {
    match s
    case InitializeCom =>
      (match CheckHr(Message(s), os.coInitialize)
       case Success(hr) => Success(hr as int)
       case Failure(e) => Failure(e))
    case CreateWindow => Check(Message(s), os.window)
    case GetDc => Check(Message(s), os.dc)
    case ChoosePixelFormat => Check(Message(s), os.pixelFormat)
    case SetPixelFormat => Check(Message(s), os.pixelFormatSet)
    case CreateGlContext => Check(Message(s), os.glContext)
    case MakeCurrent => Check(Message(s), os.madeCurrent)
    case CreateSender => Check(Message(s), os.senderCreated)
  }

  /** Whether the raw reply of step `s` passes its check: a success `HRESULT`, or a truthy value. */
  predicate Passes(os: OsReplies, s: Step) {
    match s
    case InitializeCom => !Failed(os.coInitialize)
    case CreateWindow => os.window != 0
    case GetDc => os.dc != 0
    case ChoosePixelFormat => os.pixelFormat != 0
    case SetPixelFormat => os.pixelFormatSet != 0
    case CreateGlContext => os.glContext != 0
    case MakeCurrent => os.madeCurrent != 0
    case CreateSender => os.senderCreated != 0
  }

  /** A step's check returns exactly when its reply passes, and a failing step throws its own message. */
  lemma {:induction false} OutcomeOfStep(os: OsReplies, s: Step)
    ensures Outcome(os, s).Success? <==> Passes(os, s)
    ensures Outcome(os, s).Failure? ==> Outcome(os, s).error == Message(s)
  {
  }

  /** The guard a successful step declares next; choosing and setting the pixel format declare none. */
  function ReleaseOf(os: OsReplies, s: Step): Option<Action> {
    match s
    case InitializeCom => Some(CoUninitialize)
    case CreateWindow => Some(DestroyWindow(os.window))
    case GetDc => Some(ReleaseDc(os.window, os.dc))
    case ChoosePixelFormat => None
    case SetPixelFormat => None
    case CreateGlContext => Some(DeleteGlContext(os.glContext))
    case MakeCurrent => Some(UnselectGlContext(os.dc))
    case CreateSender => Some(ReleaseSender(SenderGraceMs))
  }

  /** The actions of the guards declared by the (successful) steps `steps`, in declaration order. */
  function Guards(os: OsReplies, steps: seq<Step>): seq<Action> {
    if steps == [] then []
    else
      var last := steps[|steps| - 1];
      Guards(os, steps[..|steps| - 1]) + (if ReleaseOf(os, last).Some? then [ReleaseOf(os, last).value] else [])
  }

  /** The number of leading steps, from `k` on, that pass their check. */
  function ReachedFrom(os: OsReplies, k: nat): (n: nat)
    requires k <= |Steps|
    ensures k <= n <= |Steps|
    ensures forall j :: k <= j < n ==> Passes(os, Steps[j])
    ensures n < |Steps| ==> !Passes(os, Steps[n])
    decreases |Steps| - k
  {
    if k == |Steps| || !Passes(os, Steps[k]) then k else ReachedFrom(os, k + 1)
  }

  /** How many steps succeed: all eight, or the index of the step whose check throws. */
  function Reached(os: OsReplies): (n: nat)
    ensures n <= |Steps|
    ensures forall j :: 0 <= j < n ==> Passes(os, Steps[j])
    ensures n < |Steps| ==> !Passes(os, Steps[n])
  {
    ReachedFrom(os, 0)
  }

  /** The guards alive when the acquisition chain ends, successfully or by a throwing check. */
  function Registered(os: OsReplies): seq<Action> {
    Guards(os, Steps[..Reached(os)])
  }

  /** The exception the chain throws, if any: the message of the first failing step. */
  function Thrown(os: OsReplies): Option<string> {
    if Reached(os) < |Steps| then Some(Message(Steps[Reached(os)])) else None
  }

  /** Bootstrap succeeds exactly when every checked call passes. */
  lemma {:induction false} CompletesIffAllPass(os: OsReplies)
    ensures Reached(os) == |Steps| <==> forall j :: 0 <= j < |Steps| ==> Passes(os, Steps[j])
    ensures Thrown(os).None? <==> Reached(os) == |Steps|
  {
  }

  /**
   * The chain stops at the first failing step, or after the last step when none fails: if steps
   * `0..n-1` pass and step `n` fails or does not exist, exactly `n` steps are reached, the guards of those
   * steps are registered, and step `n`'s message is what is thrown.
   */
  lemma {:induction false} ChainStops(os: OsReplies, n: nat)
    requires n <= |Steps|
    requires forall j :: 0 <= j < n ==> Passes(os, Steps[j])
    requires n < |Steps| ==> !Passes(os, Steps[n])
    ensures Reached(os) == n
    ensures Registered(os) == Guards(os, Steps[..n])
    ensures Thrown(os) == if n < |Steps| then Some(Message(Steps[n])) else None
  {
  }

  /**
   * The guards registered by the time the chain stops, for each stopping point: step `n` failing leaves the
   * guards of steps `0..n-1`, the pixel-format steps add none, and the sender's guard owns a 200 ms release.
   */
  lemma {:induction false} RegisteredByStage(os: OsReplies)
    ensures var n := Reached(os); var r := Registered(os);
      && (n == 0 ==> r == [])
      && (n == 1 ==> r == [CoUninitialize])
      && (n == 2 ==> r == [CoUninitialize, DestroyWindow(os.window)])
      && (3 <= n <= 5 ==> r == [CoUninitialize, DestroyWindow(os.window), ReleaseDc(os.window, os.dc)])
      && (n == 6 ==> r == [CoUninitialize, DestroyWindow(os.window), ReleaseDc(os.window, os.dc),
                           DeleteGlContext(os.glContext)])
      && (n == 7 ==> r == [CoUninitialize, DestroyWindow(os.window), ReleaseDc(os.window, os.dc),
                           DeleteGlContext(os.glContext), UnselectGlContext(os.dc)])
      && (n == 8 ==> r == [CoUninitialize, DestroyWindow(os.window), ReleaseDc(os.window, os.dc),
                           DeleteGlContext(os.glContext), UnselectGlContext(os.dc), ReleaseSender(200)])
  {
    var n := Reached(os);
    assert Registered(os) == Guards(os, Steps[..n]);
    GuardsEarlyPrefixes(os);
    GuardsLatePrefixes(os);
  }

  /** The guards of each prefix of the chain up to the device context. */
  lemma {:induction false} GuardsEarlyPrefixes(os: OsReplies)
    ensures Guards(os, Steps[..0]) == []
    ensures Guards(os, Steps[..1]) == [CoUninitialize]
    ensures Guards(os, Steps[..2]) == [CoUninitialize, DestroyWindow(os.window)]
    ensures Guards(os, Steps[..3]) == [CoUninitialize, DestroyWindow(os.window), ReleaseDc(os.window, os.dc)]
  {
    assert Steps[..0] == [];
    GuardsStep(os, 0);
    GuardsStep(os, 1);
    GuardsStep(os, 2);
  }

  /** The guards of the later prefixes: the pixel-format steps add nothing, the others one guard each. */
  lemma {:induction false} GuardsLatePrefixes(os: OsReplies)
    ensures Guards(os, Steps[..4]) == Guards(os, Steps[..3])
    ensures Guards(os, Steps[..5]) == Guards(os, Steps[..3])
    ensures Guards(os, Steps[..6]) == Guards(os, Steps[..3]) + [DeleteGlContext(os.glContext)]
    ensures Guards(os, Steps[..7]) == Guards(os, Steps[..6]) + [UnselectGlContext(os.dc)]
    ensures Guards(os, Steps[..8]) == Guards(os, Steps[..7]) + [ReleaseSender(200)]
  {
    GuardsStep(os, 3);
    GuardsStep(os, 4);
    GuardsStep(os, 5);
    GuardsStep(os, 6);
    GuardsStep(os, 7);
  }

  /** Declaring the guard of step `k` extends the guards of the steps before it. */
  lemma {:induction false} GuardsStep(os: OsReplies, k: nat)
    requires k < |Steps|
    ensures Guards(os, Steps[..k + 1]) ==
      Guards(os, Steps[..k]) + (if ReleaseOf(os, Steps[k]).Some? then [ReleaseOf(os, Steps[k]).value] else [])
  {
    assert Steps[..k + 1][..k] == Steps[..k];
  }

  /** No release action is registered twice, so none runs twice when the guards unwind. */
  lemma {:induction false} RegisteredDistinct(os: OsReplies)
    ensures forall i, j :: 0 <= i < j < |Registered(os)| ==> Registered(os)[i] != Registered(os)[j]
  {
    RegisteredByStage(os);
  }

  /** The OpenGL context is neither deleted nor unselected unless it was created (and made current). */
  lemma {:induction false} ContextReleasedOnlyIfCreated(os: OsReplies)
    ensures DeleteGlContext(os.glContext) in Registered(os) <==> Reached(os) >= 6
    ensures UnselectGlContext(os.dc) in Registered(os) <==> Reached(os) >= 7
    ensures ReleaseSender(SenderGraceMs) in Registered(os) <==> Reached(os) == |Steps|
  {
    RegisteredByStage(os);
  }

  /**
   * After a complete bootstrap the unwinding releases the sender first (with its 200 ms grace), then
   * unselects and deletes the OpenGL context, releases the device context, destroys the window and
   * finally uninitializes COM.
   */
  lemma {:induction false} FullTeardownOrder(os: OsReplies)
    requires Reached(os) == |Steps|
    ensures Reverse(Registered(os)) ==
      [ReleaseSender(200), UnselectGlContext(os.dc), DeleteGlContext(os.glContext),
       ReleaseDc(os.window, os.dc), DestroyWindow(os.window), CoUninitialize]
  {
    RegisteredByStage(os);
    var r := Registered(os);
    forall k | 0 <= k < 6
      ensures Reverse(r)[k] == r[5 - k]
    {
      ReverseAt(r, k);
    }
  }
}
