/**
 * The title validator of SourceCreate (backend/app/schemas/sources.py): a
 * title must have something besides whitespace and at most 500 characters
 * once stripped, and is stored stripped.
 */
module SourceSchema {
  import opened Wrappers
  import opened Strings

  const MaxTitleChars := 500

  /** _title_non_empty: the stripped title, or the ValueError's message. */
  function ValidateTitle(v: string): Result<string, string> {
    if v == [] || Strip(v) == [] then Failure("title cannot be empty")
    else if |Strip(v)| > MaxTitleChars then Failure("title too long")
    else Success(Strip(v))
  }

  /**
   * A title is accepted exactly when it has a non-whitespace character and
   * is at most 500 characters stripped; what is returned is that stripped
   * title, which has no whitespace at either end. The two refusals carry
   * their own messages.
   */
  lemma TitleValidation(v: string)
    ensures ValidateTitle(v).Success? <==> (exists i :: 0 <= i < |v| && !IsPySpace(v[i])) && |Strip(v)| <= MaxTitleChars
    ensures ValidateTitle(v) == Failure("title cannot be empty") <==> forall i :: 0 <= i < |v| ==> IsPySpace(v[i])
    ensures ValidateTitle(v) == Failure("title too long") <==> |Strip(v)| > MaxTitleChars
    ensures ValidateTitle(v).Success? ==>
      var t := ValidateTitle(v).value;
      t == Strip(v) && 1 <= |t| <= MaxTitleChars && IsStripped(t)
  {
    StripIsStripped(v);
    if forall i :: 0 <= i < |v| ==> IsPySpace(v[i]) {
      assert Strip(v) == [];
    }
  }

  /** Validating an accepted title again returns it unchanged. */
  lemma TitleIdempotent(v: string)
    requires ValidateTitle(v).Success?
    ensures ValidateTitle(ValidateTitle(v).value) == ValidateTitle(v)
  {
    var t := Strip(v);
    assert ValidateTitle(v) == Success(t);
    StripIsStripped(v);
    StripOfStripped(t, PySpace);
    assert Strip(t) == t;
  }
}
