/** `check`, `check_hr` and the messages produced by the `CHECK` and `CHECK_HR` macros. */
module Checks {
  import opened Wrappers

  /** A Windows `HRESULT`: a signed 32-bit status code. */
  newtype HResult = x: int | -0x8000_0000 <= x < 0x8000_0000

  /** `FAILED (hr)`: the severity bit is set, that is, the code is negative. */
  predicate Failed(hr: HResult) {
    hr < 0
  }

  /**
   * The message `CHECK (msg, v)` and `CHECK_HR (msg, hr)` throw: the file and line of the macro use,
   * then the fixed phrase, then the description of the attempted operation.
   */
  function AbortMessage(file: string, line: string, what: string): (m: string)
    ensures |m| == |file| + |line| + |AbortPhrase| + |what| + 2
    ensures m[|m| - |what|..] == what
    ensures m[..|file|] == file
  {
    file + "(" + line + ")" + AbortPhrase + what
  }

  const AbortPhrase: string := " Aborted when trying to: "

  /**
   * `check (msg, v)`: a handle, `BOOL` or pixel-format index is returned unchanged when truthy (non-zero,
   * non-null); when falsy a `std::runtime_error` carrying `msg` is thrown.
   */
  function Check(message: string, v: int): (r: Result<int, string>)
    ensures r.Success? <==> v != 0
    ensures r.Success? ==> r.value == v
    ensures r.Failure? ==> r.error == message
  {
    if v == 0 then Failure(message) else Success(v)
  }

  /**
   * `check_hr (msg, hr)`: `hr` is returned unchanged unless `FAILED (hr)`, in which case `msg` is thrown.
   * Success codes other than `S_OK`, such as `S_FALSE` from an already initialized COM runtime, pass.
   */
  function CheckHr(message: string, hr: HResult): (r: Result<HResult, string>)
    ensures r.Failure? <==> Failed(hr)
    ensures r.Success? ==> r.value == hr && hr >= 0
    ensures r.Failure? ==> r.error == message
  {
    if Failed(hr) then Failure(message) else Success(hr)
  }
}
