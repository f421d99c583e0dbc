/**
 * Values shared by every service: identifiers, nullable values, and the
 * `ErrorOr` error records the handlers return instead of throwing.
 */
module Common {

  /** A byte (of a message body, of a decoded token). */
  type Byte = b: int | 0 <= b < 256

  /** A .NET `Guid`; `EmptyGuid` stands for `Guid.Empty`. */
  type Guid = nat
  const EmptyGuid: Guid := 0

  /** A .NET `DateTime` as a tick count; `DefaultTime` is `default(DateTime)`. */
  type Time = int
  const DefaultTime: Time := 0

  /** `DateTime` ticks (100 ns) in a minute and in a day. */
  const TicksPerMinute: int := 600_000_000
  const TicksPerDay: int := 864_000_000_000

  /** A nullable value (`T?`, or a reference that may be null). */
  datatype Option<+T> = None | Some(value: T)

  /** The kinds of `ErrorOr.Error` the handlers produce. */
  datatype ErrorKind = Failure | Unexpected | Validation | Conflict | NotFound | Unauthorized

  /**
   * An `ErrorOr.Error`. A `description` of `None` is the library's default
   * description for the kind, which the call leaves in place when it passes
   * only a code.
   */
  datatype Error = Error(kind: ErrorKind, code: string, description: Option<string>)

  /** `Error.Failure(s)`: a single argument is the error's code; the description is the library's default. */
  function FailureError(code: string): Error {
    Error(Failure, code, None)
  }

  /** `Error.NotFound(s)`: a single argument is the error's code; the description is the library's default. */
  function NotFoundError(code: string): Error {
    Error(NotFound, code, None)
  }

  /** `Error.Unauthorized(s)`: a single argument is the error's code; the description is the library's default. */
  function UnauthorizedError(code: string): Error {
    Error(Unauthorized, code, None)
  }

  /** `Error.Unexpected(s)`: a single argument is the error's code; the description is the library's default. */
  function UnexpectedError(code: string): Error {
    Error(Unexpected, code, None)
  }

  /** `Error.Conflict(s)`: a single argument is the error's code; the description is the library's default. */
  function ConflictError(code: string): Error {
    Error(Conflict, code, None)
  }

  /** `ErrorOr<T>`: either the value or an error. */
  datatype Result<+T> = Ok(value: T) | Err(error: Error)

  /** What a handler's call comes to: the `ErrorOr` it returns, or an exception that escapes it. */
  datatype Outcome<T> = Returned(result: Result<T>) | Threw

  /**
   * `string.Length`: the number of UTF-16 code units, so a character outside
   * the Basic Multilingual Plane counts twice (a surrogate pair).
   */
  function Utf16Length(s: string): (n: nat)
    ensures |s| <= n <= 2 * |s|
    ensures (forall i :: 0 <= i < |s| ==> s[i] as int < 0x1_0000) ==> n == |s|
  {
    if s == [] then 0
    else Utf16Length(s[..|s| - 1]) + (if s[|s| - 1] as int < 0x1_0000 then 1 else 2)
  }

  /** The UTF-16 length of a concatenation is the sum of the lengths. */
  lemma {:induction false} Utf16LengthConcat(s: string, t: string)
    ensures Utf16Length(s + t) == Utf16Length(s) + Utf16Length(t)
    decreases |t|
  {
    if t != [] {
      var u := t[..|t| - 1];
      assert (s + t)[..|s + t| - 1] == s + u;
      Utf16LengthConcat(s, u);
    } else {
      assert s + t == s;
    }
  }

  /** `string.IsNullOrEmpty`. */
  predicate IsNullOrEmpty(s: Option<string>) {
    s.None? || s.value == []
  }

  /**
   * `Char.IsWhiteSpace`: the control characters U+0009 to U+000D and U+0085,
   * and the Unicode space, line and paragraph separators.
   */
  predicate IsWhiteSpace(c: char) {
    var n := c as int;
    (0x09 <= n <= 0x0D) || n == 0x20 || n == 0x85 || n == 0xA0 || n == 0x1680 ||
    (0x2000 <= n <= 0x200A) || n == 0x2028 || n == 0x2029 || n == 0x202F || n == 0x205F || n == 0x3000
  }

  /** `string.IsNullOrWhiteSpace`. */
  predicate IsNullOrWhiteSpace(s: Option<string>) {
    s.None? || forall i :: 0 <= i < |s.value| ==> IsWhiteSpace(s.value[i])
  }

  /** The ASCII letters, the only characters `ToLowerInvariant` changes here. */
  function ToLowerChar(c: char): (r: char)
    ensures 'A' <= c <= 'Z' ==> 'a' <= r <= 'z'
    ensures !('A' <= c <= 'Z') ==> r == c
  {
    if 'A' <= c <= 'Z' then (c as int - 'A' as int + 'a' as int) as char else c
  }

  /** `string.ToLowerInvariant`, restricted to the ASCII letters. */
  function ToLower(s: string): (r: string)
    ensures |r| == |s|
    ensures forall i :: 0 <= i < |s| ==> r[i] == ToLowerChar(s[i])
  {
    if s == [] then [] else [ToLowerChar(s[0])] + ToLower(s[1..])
  }

  /** The error both document services answer with when their store refuses an event. */
  const SaveFailedMessage: string := "something went wrong trying so save the file."

  /** A handler's answer once the store has said whether it took the event for document `id`. */
  function SaveOutcome(id: Guid, added: bool): (r: Result<Guid>)
    ensures added <==> r.Ok?
    ensures r.Ok? ==> r.value == id
    ensures r.Err? ==> r.error == FailureError(SaveFailedMessage)
  {
    if added then Ok(id) else Err(FailureError(SaveFailedMessage))
  }
}
