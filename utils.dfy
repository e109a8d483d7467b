/** `validationHelpers` of `src/utils/utils.ts`: each helper returns the
    message to show, or None (`null`) when the value passes. */
module Utils {

  import opened Wrappers
  import opened Text

  /** `isRequired(value, fieldName)`; `value` may be `null`/`undefined`. */
  function IsRequired(value: Option<string>, fieldName: string): (r: Option<string>)
    ensures r.None? <==> value.Some? && !AllWhitespace(value.value)
    ensures r.Some? ==> r.value == fieldName + " is required."
  {
    if value.None? || value.value == "" || (TrimEmptyIff(value.value); Trim(value.value) == "") then
      Some(fieldName + " is required.")
    else None
  }

  /** `hasSpecialCharacters(value, fieldName, allowedPattern)`, with the
      pattern's `test` given as a predicate. */
  function HasSpecialCharacters(value: string, fieldName: string, allowedPattern: string -> bool): (r: Option<string>)
    ensures r.None? <==> allowedPattern(value)
    ensures r.Some? ==> r.value == fieldName + " contains invalid characters"
  {
    if !allowedPattern(value) then Some(fieldName + " contains invalid characters") else None
  }

  /** `minLength(value, minLen, fieldName)`; `.length` counts UTF-16 code
      units. */
  function MinLength(value: string, minLen: int, fieldName: string): (r: Option<string>)
    ensures r.None? <==> value != "" && Utf16Length(Trim(value)) >= minLen
    ensures r.Some? ==> r.value == fieldName + " must be at least " + IntToString(minLen) + " characters."
  {
    if value == "" || Utf16Length(Trim(value)) < minLen then
      Some(fieldName + " must be at least " + IntToString(minLen) + " characters.")
    else None
  }

  /** The empty string fails even a minimum of zero. */
  lemma MinLengthRejectsEmpty(minLen: int, fieldName: string)
    ensures MinLength("", minLen, fieldName).Some?
  {
  }

  /** Passing a minimum means passing every smaller one. */
  lemma MinLengthMonotonic(value: string, n: int, m: int, fieldName: string)
    requires m <= n
    requires MinLength(value, n, fieldName).None?
    ensures MinLength(value, m, fieldName).None?
  {
  }

  /** A single character beyond the Basic Multilingual Plane is two code
      units long, so it passes a minimum of two. */
  lemma MinLengthCountsCodeUnits(c: char, fieldName: string)
    requires IsAstral(c)
    ensures MinLength([c], 2, fieldName).None?
  {
    TrimAstral(c);
  }

  /** A positive minimum that passes implies the value is present. */
  lemma MinLengthImpliesRequired(value: string, n: int, fieldName: string, otherName: string)
    requires n >= 1
    requires MinLength(value, n, fieldName).None?
    ensures IsRequired(Some(value), otherName).None?
  {
    TrimEmptyIff(value);
  }
}
