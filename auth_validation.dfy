/**
 * `registrationValidator` (src/validations/auth.js): three field rules run before
 * `registerUser`. The email-format check is an uninterpreted predicate `isEmail`.
 */
module AuthValidation {
  import opened Common

  /** The fields of a registration request body; a field may be missing. */
  datatype RegisterBody = RegisterBody(username: Option<string>, email: Option<string>, password: Option<string>)

  /** The path a validation error names. */
  datatype Field = Username | Email | Password

  const MinUsernameLength: nat := 5
  const MinPasswordLength: nat := 5

  /** express-validator checks a missing field as the empty string. */
  function FieldText(v: Option<string>): string {
    if v.Some? then v.value else ""
  }

  predicate UsernameValid(body: RegisterBody) {
    |FieldText(body.username)| >= MinUsernameLength
  }

  predicate EmailValid(body: RegisterBody, isEmail: string -> bool) {
    isEmail(FieldText(body.email))
  }

  predicate PasswordValid(body: RegisterBody) {
    |FieldText(body.password)| >= MinPasswordLength
  }

  function Rank(f: Field): nat {
    match f
    case Username => 0
    case Email => 1
    case Password => 2
  }

  /**
   * The errors `validationResult` collects, one per failed rule, in the order the rules
   * are declared. The length rules have an inclusive minimum of 5 and no maximum.
   */
  function RegistrationErrors(body: RegisterBody, isEmail: string -> bool): (errors: seq<Field>)
    ensures Username in errors <==> |FieldText(body.username)| < 5
    ensures Email in errors <==> !isEmail(FieldText(body.email))
    ensures Password in errors <==> |FieldText(body.password)| < 5
    ensures |errors| == 0 <==>
              |FieldText(body.username)| >= 5 && isEmail(FieldText(body.email)) && |FieldText(body.password)| >= 5
    ensures forall i, j :: 0 <= i < j < |errors| ==> Rank(errors[i]) < Rank(errors[j])
  {
    (if UsernameValid(body) then [] else [Username])
    + (if EmailValid(body, isEmail) then [] else [Email])
    + (if PasswordValid(body) then [] else [Password])
  }
}
