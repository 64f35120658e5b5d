# SpoutVideoCapture, modelled in Dafny

`SpoutVideoCapture.cpp` is a small Windows program that publishes pseudo-random video frames through a
Spout sender. It first acquires a chain of resources: the COM runtime, an invisible window, its device
context, a pixel format, an OpenGL context made current, and a Spout sender. Each acquisition is checked
with `CHECK`/`CHECK_HR`, and each acquired resource is bound to a scope-exit guard (`on_exit_guard`).
The program then pumps frames until a key is pressed. Each frame is a 640 x 480 x 4 byte image filled
from `std::mt19937`. On every way out, the guards release the resources in reverse order, and `main`
maps the outcome to exit code 0, 998 or 999.

The model has six modules, one per concern:

- `ScopeGuard` (`guard.dfy`): `on_exit_guard` is a class with the source's `execute_on_exit` flag
  (renamed `executeOnExit` in Dafny), the owned action and a ghost count of how often the action has run. `Destroy` is the destructor. It
  hands the action it runs back to its caller, which performs it. The file also holds `on_exit`,
  declaring a guard in a scope (`Declare`) and leaving the scope (`Unwind`, last declared first).
- `Checks` (`check.dfy`): `check`, `check_hr`, `FAILED` on a 32-bit `HRESULT`, and the abort message
  the macros build.
- `Bootstrap` (`bootstrap.dfy`): the eight checked calls of `main` as data. Each call's raw reply
  (`OsReplies`) decides whether it passes. The module also says which guard each passing call
  declares (choosing and setting the pixel format declare none) and which guards exist when the chain
  stops.
- `FramePump` (`pump.dfy`): the frame loop. `Fill` overwrites the image array in place. `Pump` runs the
  `while` loop: tick counter, progress line every 60 frames, one `SendImage` per tick.
  - The result of each `wait_for` is an input sequence of `Ready`/`Timeout`/`Deferred`. The loop goes
    on only while it reads `Timeout`.
  - The generator is a parameter `gen`: `gen(k)` is the `k`-th output of the seeded `std::mt19937`.
- `SpoutVideoCapture` (`capture.dfy`): `main` as `Capture`. It acquires the chain (`Acquire`, a loop
  over the steps that declares guard objects), pumps only when every step passed, then unwinds every
  declared guard. It also gives the exit code and the last line printed.
- `Wrappers` (`wrappers.dfy`): `Option` and `Result`.

Each synthetic byte is `random () >> 24`, the top byte of the generator's 32-bit word
(`FramePump.Top8`). The program has no capture-device mode and no frame-size check: every image it
sends has exactly the sender's size (`FramePump.OnlyFullFramesSent`).

## Model

| member | source | states |
|---|---|---|
| `ScopeGuard.OnExitGuard.constructor` | SpoutVideoCapture/SpoutVideoCapture/SpoutVideoCapture.cpp:40-44 | A new guard is armed, has not fired, and owns the given action. |
| `ScopeGuard.OnExitGuard.Move` | SpoutVideoCapture/SpoutVideoCapture/SpoutVideoCapture.cpp:46-51 | The new guard takes over the source's armed flag and action, and the source is disarmed. Between them the action is still owed at most once: the owed count is preserved. |
| `ScopeGuard.OnExitGuard.Destroy` | SpoutVideoCapture/SpoutVideoCapture/SpoutVideoCapture.cpp:53-60 | An armed guard is disarmed and runs its action exactly once, so its fire count becomes 1. An unarmed guard runs nothing. Either way the guard is disarmed afterwards, so destroying it again runs nothing. |
| `ScopeGuard.OnExit` | SpoutVideoCapture/SpoutVideoCapture/SpoutVideoCapture.cpp:68-72 | Returns a fresh, armed, unfired guard that owns the action. |
| `ScopeGuard.DeclareByMove` | SpoutVideoCapture/SpoutVideoCapture/SpoutVideoCapture.cpp:46-72 | A named guard is move-constructed from the temporary `on_exit` returns. Both are destroyed, and the action runs exactly once. |
| `ScopeGuard.Declare` | SpoutVideoCapture/SpoutVideoCapture/SpoutVideoCapture.cpp:113-147 | Declaring a guard leaves the earlier guards armed and untouched, and puts a new armed guard for the action on top. |
| `ScopeGuard.Unwind` | SpoutVideoCapture/SpoutVideoCapture/SpoutVideoCapture.cpp:112-147 | Leaving the scope destroys every armed guard, last declared first. The actions run in exactly the reverse of declaration order, and each guard's fire count ends at 1. |
| `ScopeGuard.ReverseSwapsOrder` | SpoutVideoCapture/SpoutVideoCapture/SpoutVideoCapture.cpp:112-147 | Of two guards, the one declared later is released earlier. |
| `Checks.AbortMessage` | SpoutVideoCapture/SpoutVideoCapture/SpoutVideoCapture.cpp:20-25 | The thrown message starts with the file name and ends with the description passed to the macro. Its length is the parts' lengths plus the two parentheses. |
| `Checks.Check` | SpoutVideoCapture/SpoutVideoCapture/SpoutVideoCapture.cpp:74-83 | Succeeds exactly when the value is truthy (non-zero), and then returns it unchanged. Otherwise it fails with the given message. |
| `Checks.CheckHr` | SpoutVideoCapture/SpoutVideoCapture/SpoutVideoCapture.cpp:85-93 | Fails exactly when `FAILED (hr)` (the code is negative), with the given message. Otherwise it returns `hr` unchanged. |
| `Bootstrap.OutcomeOfStep` | SpoutVideoCapture/SpoutVideoCapture/SpoutVideoCapture.cpp:112-146 | A step's check returns exactly when its reply passes (success `HRESULT` or truthy value). A failing step throws the message for its own line and description. |
| `Bootstrap.ReachedFrom` | SpoutVideoCapture/SpoutVideoCapture/SpoutVideoCapture.cpp:112-146 | From step `k` on: the steps up to the result pass, and the step at the result, if any, fails. |
| `Bootstrap.Reached` | SpoutVideoCapture/SpoutVideoCapture/SpoutVideoCapture.cpp:112-146 | The chain stops at the first failing step, or after all eight. Every step before the stopping point passes and the step at it fails. |
| `Bootstrap.CompletesIffAllPass` | SpoutVideoCapture/SpoutVideoCapture/SpoutVideoCapture.cpp:112-146 | All eight steps are reached exactly when every check passes, and nothing is thrown exactly then. |
| `Bootstrap.ChainStops` | SpoutVideoCapture/SpoutVideoCapture/SpoutVideoCapture.cpp:112-147 | If steps `0..n-1` pass and step `n` fails (or `n` is 8), then exactly `n` steps are reached. Only those steps' guards are registered, and step `n`'s message is thrown. |
| `Bootstrap.RegisteredByStage` | SpoutVideoCapture/SpoutVideoCapture/SpoutVideoCapture.cpp:112-147 | For each stopping point, the exact guards alive, with their captured handles. The pixel-format steps add none, and the sender's guard releases with grace 200. |
| `Bootstrap.RegisteredDistinct` | SpoutVideoCapture/SpoutVideoCapture/SpoutVideoCapture.cpp:112-147 | No release action is registered twice. |
| `Bootstrap.ContextReleasedOnlyIfCreated` | SpoutVideoCapture/SpoutVideoCapture/SpoutVideoCapture.cpp:135-147 | The GL context is deleted only if it was created and unselected only if it was made current. The sender is released only if every step passed. |
| `Bootstrap.FullTeardownOrder` | SpoutVideoCapture/SpoutVideoCapture/SpoutVideoCapture.cpp:112-147 | After a complete chain, teardown runs: sender (grace 200), unselect context, delete context, release DC, destroy window, `CoUninitialize`. |
| `FramePump.Top8` | SpoutVideoCapture/SpoutVideoCapture/SpoutVideoCapture.cpp:166 | The stored byte is the word's top 8 bits: `b * 2^24 <= w < (b + 1) * 2^24`, so it is below 256 and nothing is truncated. |
| `FramePump.Fill` | SpoutVideoCapture/SpoutVideoCapture/SpoutVideoCapture.cpp:164-167 | Every index of the fixed-size image is overwritten in place. Index `j` gets the top byte of the generator output at `start + j`. |
| `FramePump.Ticks` | SpoutVideoCapture/SpoutVideoCapture/SpoutVideoCapture.cpp:162 | The loop runs exactly while the poll reports `Timeout`. Every poll before the stop is a timeout, and the one at the stop (`Ready` or `Deferred`) is not. |
| `FramePump.PollsAfterStopIgnored` | SpoutVideoCapture/SpoutVideoCapture/SpoutVideoCapture.cpp:162 | Once a poll ends the loop, later poll results cannot change the number of ticks. |
| `FramePump.Pump` | SpoutVideoCapture/SpoutVideoCapture/SpoutVideoCapture.cpp:149-174 | The loop runs `Ticks(polls)` times and emits exactly `PumpEvents`. The image keeps `FrameBytes` bytes, the counter equals the ticks done, and the generator advances one frame per tick. |
| `FramePump.FramesAt` | SpoutVideoCapture/SpoutVideoCapture/SpoutVideoCapture.cpp:164-167 | The frames of `n` ticks are `n` images, and the `t`-th is the one tick `t` fills. |
| `FramePump.OneFramePerTick` | SpoutVideoCapture/SpoutVideoCapture/SpoutVideoCapture.cpp:162-174 | After `n` ticks exactly `n` images have been sent, one per tick and in tick order. |
| `FramePump.ProgressEverySixty` | SpoutVideoCapture/SpoutVideoCapture/SpoutVideoCapture.cpp:168-172 | The progress lines carry exactly the counters 60, 120, ... up to `n`, so `n` ticks print `n / 60` lines. |
| `FramePump.ThreeLinesIn180Ticks` | SpoutVideoCapture/SpoutVideoCapture/SpoutVideoCapture.cpp:168-172 | 180 ticks print exactly the lines for frames 60, 120 and 180. |
| `FramePump.OnlyFullFramesSent` | SpoutVideoCapture/SpoutVideoCapture/SpoutVideoCapture.cpp:143-173 | Every image handed to `SendImage` holds 1228800 = 640 x 480 x 4 bytes and is sent with width 640 and height 480. |
| `FramePump.Reproducible` | SpoutVideoCapture/SpoutVideoCapture/SpoutVideoCapture.cpp:152-167 | A frame depends only on the generator outputs it consumes, so a fixed seed reproduces it bit for bit. |
| `SpoutVideoCapture.ExitCode` | SpoutVideoCapture/SpoutVideoCapture/SpoutVideoCapture.cpp:176-189 | 0 exactly for a normal end, 998 exactly for a `std::exception`, 999 exactly for anything else thrown. |
| `SpoutVideoCapture.Report` | SpoutVideoCapture/SpoutVideoCapture/SpoutVideoCapture.cpp:176-188 | A caught `std::exception` is reported as exactly `Problem detected - `, its `what ()` text and `. Exiting.`. Only such a report starts with that prefix: the done line and the unknown-problem line do not. |
| `SpoutVideoCapture.Acquire` | SpoutVideoCapture/SpoutVideoCapture/SpoutVideoCapture.cpp:112-147 | Runs the checked steps in order and stops at the first failure. Returns the declared guards, armed and distinct and owning exactly `Registered` actions, plus the exception, if any. |
| `SpoutVideoCapture.Capture` | SpoutVideoCapture/SpoutVideoCapture/SpoutVideoCapture.cpp:99-190 | Releases are the reverse of the registered guards. Frames are pumped only after a complete chain; a failed chain sends nothing. The exit code and last line follow from how the chain ended. |
| `SpoutVideoCapture.ExitCodeOfRun` | SpoutVideoCapture/SpoutVideoCapture/SpoutVideoCapture.cpp:112-189 | `main` returns 0 exactly when every check passes and 998 exactly when some check fails. It never returns 999 from a check. |
| `SpoutVideoCapture.ReleasedOnce` | SpoutVideoCapture/SpoutVideoCapture/SpoutVideoCapture.cpp:112-147 | However `main` ends, each registered action runs exactly once and no other action runs. |
| `SpoutVideoCapture.FailureReportNamesStep` | SpoutVideoCapture/SpoutVideoCapture/SpoutVideoCapture.cpp:180-184 | When step `n` is the first failure, the last line is `Problem detected - ` plus that step's abort message, and the exit code is 998. |

## Left out

- The Win32, COM and `wgl*` calls are foreign. Each is one raw reply in `OsReplies` that decides
  whether its check passes. The handles it returns are only recorded in the release actions that
  capture them.
- `SpoutSender` internals are vendored code.
  - `SendImage` is recorded as an event carrying the image, width and height.
  - `ReleaseSender` is recorded as the guard's action, with grace 200.
  - `CreateSender (app_name, 640, 480)` counts only through whether it succeeds.
  - The sender object's own destructor is not modelled. `SpoutSender sender` is declared between the
    unselect-context guard and the release-sender guard, so its destructor runs right after
    `ReleaseSender (200)` and before the unselect, delete-context, release-DC, destroy-window and
    `CoUninitialize` guards. When `CreateSender` fails it runs first in the unwind.
    `Bootstrap.FullTeardownOrder` and `SpoutVideoCapture.Capture`'s release log list only the guards'
    actions, so this call is missing between their first two entries.
- `std::async`/`std::getchar` and `wait_for`'s 20 ms timeout are concurrency and timing. They are
  replaced by a finite sequence of poll results. A run in which no key is ever pressed is modelled by
  its finite prefixes: the pump stops when the sequence runs out.
- SpoutVideoCapture.Capture: when every poll in the sequence is `Timeout`, the model ends the loop
  there and reports exit code 0, the done line and the full teardown. The real program is still
  looping at that point: this is a cancellation that the program never observes, and those results
  only describe what would follow if the next poll were `Ready`.
- The future `done` is declared first, so its destructor runs after every guard on every exit path.
  That destructor waits for the `getchar` call. So after a failed check the program still waits for
  a key before printing the problem. This waiting is not modelled.
- `std::mt19937` internals belong to the library. The generator is the parameter `gen`. `Seed`
  only documents the seed (19740531) it stands for; nothing in the model ties `gen` to it.
- `printf` formatting is left out. Only the progress lines (as their counters) and the last line are
  modelled. "Initializing video capture...", "Hit enter to exit" and the other banner lines are not.
- SpoutVideoCapture.Capture: returns the release log and the last line separately. It does not state
  their relative order. On a normal end the last line is printed before the guards unwind; after an
  exception it is printed after them.
- FramePump.Pump: the frame counter is a C++ `int`. Signed overflow after 2^31 - 1 ticks is
  undefined behaviour and is not modelled; the counter is unbounded.
- SpoutVideoCapture.Capture: never produces exit code 999. The only exceptions modelled are the
  checks' `std::runtime_error`s. `std::bad_alloc` from the image resize and `std::system_error` from
  `std::async` would also give 998. `ExitCode` covers 999 for anything else thrown.
- `__FILE__` is spelled `SpoutVideoCapture.cpp` in the abort messages. The real spelling depends on
  how the compiler is invoked.
- The capture-device mode (device enumeration, format negotiation, sample reading) belongs to other
  programs of the repository and is not part of this model.
