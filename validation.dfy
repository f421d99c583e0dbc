/**
 * The MediatR `ValidationBehaviour`: the request's validator runs before its
 * handler, and a failed validation answers with one `Validation` error per
 * failure instead of calling the handler.
 */
module Validation {
  import opened Common

  /** A FluentValidation `ValidationFailure`. */
  datatype ValidationFailure = ValidationFailure(propertyName: string, errorMessage: string)

  /**
   * What the behaviour answers: the handler's own response (the handler was
   * called once), or the validation errors (the handler was not called).
   */
  datatype Response<T> = Handled(value: T) | Invalid(errors: seq<Error>)

  /** One rule: no failure when `ok`, otherwise a failure on `property` with `message`. */
  function Rule(ok: bool, property: string, message: string): (r: seq<ValidationFailure>)
    ensures ok <==> r == []
    ensures !ok ==> r == [ValidationFailure(property, message)]
  {
    if ok then [] else [ValidationFailure(property, message)]
  }

  /** `Error.Validation(code: PropertyName, description: ErrorMessage)`. */
  function ToError(f: ValidationFailure): (r: Error)
    ensures r.kind == Validation && r.code == f.propertyName && r.description == Some(f.errorMessage)
  {
    Error(Validation, f.propertyName, Some(f.errorMessage))
  }

  /** The inverse of `ToError` on validation errors. */
  function ToFailure(e: Error): ValidationFailure {
    ValidationFailure(e.code, if e.description.Some? then e.description.value else [])
  }

  /**
   * `ValidationBehaviour.Handle`. `failures` is `None` when the request has no
   * validator, otherwise the failures its validator reports; `next` is what
   * the handler would answer.
   */
  function Handle<T>(failures: Option<seq<ValidationFailure>>, next: T): (r: Response<T>)
    ensures r.Handled? <==> failures.None? || failures.value == []
    ensures r.Handled? ==> r.value == next
    ensures r.Invalid? ==> (|r.errors| == |failures.value| &&
      forall i :: 0 <= i < |r.errors| ==> r.errors[i] == ToError(failures.value[i]))
  {
    if failures.None? then Handled(next)
    else if failures.value == [] then Handled(next)
    else Invalid(seq(|failures.value|, i requires 0 <= i < |failures.value| => ToError(failures.value[i])))
  }

  /** An invalid request's answer does not depend on the handler: it is never called. */
  lemma InvalidIgnoresHandler<T>(failures: seq<ValidationFailure>, next1: T, next2: T)
    requires failures != []
    ensures Handle(Some(failures), next1).Invalid?
    ensures Handle(Some(failures), next1) == Handle(Some(failures), next2)
  {
  }

  /** The errors carry the failures back unchanged and in order. */
  lemma {:induction false} ErrorsRecoverFailures<T>(failures: seq<ValidationFailure>, next: T)
    requires failures != []
    ensures var errs := Handle(Some(failures), next).errors;
      seq(|errs|, i requires 0 <= i < |errs| => ToFailure(errs[i])) == failures
  {
    var errs := Handle(Some(failures), next).errors;
    forall i | 0 <= i < |errs|
      ensures ToFailure(errs[i]) == failures[i]
    {
      assert errs[i] == ToError(failures[i]);
    }
  }

  // FluentValidation's built-in validators. All but `NotEmpty` let a null value through.

  /** `NotEmpty` on a string: not null, not empty and not only white space. */
  predicate NotEmpty(s: Option<string>) {
    !IsNullOrWhiteSpace(s)
  }

  /** `Length(min, max)`, on the string's UTF-16 length. */
  predicate HasLength(s: Option<string>, min: nat, max: nat) {
    s.None? || min <= Utf16Length(s.value) <= max
  }

  /** `MinimumLength(min)`, on the string's UTF-16 length. */
  predicate HasMinimumLength(s: Option<string>, min: nat) {
    s.None? || Utf16Length(s.value) >= min
  }

  /** `Matches("[lo-hi]+")`: some character lies in the range. */
  predicate MatchesRange(s: Option<string>, lo: char, hi: char) {
    s.None? || exists i :: 0 <= i < |s.value| && lo <= s.value[i] <= hi
  }

  const PageNumberMessage: string := "PageNumber at least greater than or equal to 1."
  const PageSizeMessage: string := "PageSize at least greater than or equal to 1."

  /** The page-request validator both services declare: page number and size at least 1. */
  function PageRequestFailures(pageNumber: int, pageSize: int): (r: seq<ValidationFailure>)
    ensures r == [] <==> pageNumber >= 1 && pageSize >= 1
    ensures |r| == (if pageNumber >= 1 then 0 else 1) + (if pageSize >= 1 then 0 else 1)
  {
    Rule(pageNumber >= 1, "PageNumber", PageNumberMessage) + Rule(pageSize >= 1, "PageSize", PageSizeMessage)
  }

  /** The messages of the document services' "not deleted" and "not a virus" rules. */
  const FileDeletedMessage: string := "Sorry, the file has previously been deleted so it can't be edited"
  const MaliciousFileMessage: string := "Please don't upload malicious files"
}
