/**
 * CreateUserRequest's bean-validation constraints as one predicate. @NotBlank fails on null
 * and on a value that trims to nothing; @Size counts UTF-16 code units and accepts null;
 * the syntax @Email accepts is the parameter `isEmail` (it accepts null too).
 */
module Validation {
  import opened Wrappers
  import JavaStrings
  import Models

  predicate NotBlank(v: Option<string>) {
    v.Some? && JavaStrings.Trim(v.value) != []
  }

  predicate SizeWithin(v: Option<string>, min: nat, max: nat) {
    v.None? || min <= JavaStrings.Utf16Length(v.value) <= max
  }

  predicate EmailSyntax(v: Option<string>, isEmail: string -> bool) {
    v.None? || isEmail(v.value)
  }

  /** firstName and lastName: @NotBlank @Size(min = 2, max = 50). */
  predicate NameValid(v: Option<string>) {
    NotBlank(v) && SizeWithin(v, 2, 50)
  }

  /** email: @NotBlank @Email. */
  predicate EmailValid(v: Option<string>, isEmail: string -> bool) {
    NotBlank(v) && EmailSyntax(v, isEmail)
  }

  /** password: @NotBlank @Size(min = 8, max = 16). */
  predicate PasswordValid(v: Option<string>) {
    NotBlank(v) && SizeWithin(v, 8, 16)
  }

  /** @Valid CreateUserRequest. */
  predicate IsValid(r: Models.CreateUserRequest, isEmail: string -> bool) {
    NameValid(r.firstName) && NameValid(r.lastName) && EmailValid(r.email, isEmail) && PasswordValid(r.password)
  }

  /** Not blank means present with at least one character above U+0020. */
  lemma NotBlankMeans(v: Option<string>)
    ensures NotBlank(v) <==> v.Some? && exists i :: 0 <= i < |v.value| && !JavaStrings.IsTrimmable(v.value[i])
  {
    if v.Some? {
      JavaStrings.TrimSpec(v.value);
    }
  }

  /** A valid request has no null field, and every field is within its bounds. */
  lemma ValidMeans(r: Models.CreateUserRequest, isEmail: string -> bool)
    requires IsValid(r, isEmail)
    ensures Models.Complete(r)
    ensures 2 <= JavaStrings.Utf16Length(r.firstName.value) <= 50
    ensures 2 <= JavaStrings.Utf16Length(r.lastName.value) <= 50
    ensures 8 <= JavaStrings.Utf16Length(r.password.value) <= 16
    ensures isEmail(r.email.value)
  {
  }

  /** A value made of blanks only is rejected, whatever its length. */
  lemma BlankRejected(s: string)
    requires forall i :: 0 <= i < |s| ==> JavaStrings.IsTrimmable(s[i])
    ensures !NameValid(Some(s)) && !PasswordValid(Some(s))
    ensures forall isEmail: string -> bool :: !EmailValid(Some(s), isEmail)
  {
    JavaStrings.TrimSpec(s);
  }

  /** The controller test's passwords: "123" is too short, "1234567890" is accepted. */
  lemma PasswordExamples()
    ensures !PasswordValid(Some("123"))
    ensures PasswordValid(Some("1234567890"))
  {
    var accepted := "1234567890";
    assert |accepted| == 10 && JavaStrings.IsTrimmed(accepted);
    JavaStrings.Utf16LengthOfBmp(accepted);
    TrimmedIsNotBlank(accepted);
  }

  lemma TrimmedIsNotBlank(s: string)
    requires s != [] && JavaStrings.IsTrimmed(s)
    ensures NotBlank(Some(s))
  {
    JavaStrings.TrimOfTrimmed(s);
  }

  /** With the controller test's passwords: any request with password "123" is invalid, and
      one with "1234567890" is valid exactly when its other three fields are. */
  lemma TestPasswords(r: Models.CreateUserRequest, isEmail: string -> bool)
    ensures r.password == Some("123") ==> !IsValid(r, isEmail)
    ensures r.password == Some("1234567890") ==>
              (IsValid(r, isEmail) <==> NameValid(r.firstName) && NameValid(r.lastName) && EmailValid(r.email, isEmail))
  {
    PasswordExamples();
  }
}
