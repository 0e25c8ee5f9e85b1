/**
 * The first step of signup (`InitialRoleStep`): choosing a role, entering an
 * instructor's access code when signing up as a student, and submitting.
 */
module SignupRoleStep {
  import opened Wrappers

  datatype Role = Student | Instructor

  /** The instructor part of the `checkCode` response. */
  datatype CodeOwner = CodeOwner(id: nat, firstName: string, lastName: string)

  /**
   * The awaited response of `InstructorService.checkCode`: an error response, or
   * `{valid, user}` where `user` may be missing.
   */
  datatype CheckResponse = CheckError | Checked(valid: bool, user: Option<CodeOwner>)

  /** One call of the `onSuccess` prop: `onSuccess(role, accessCode?, instructorId?, instructorName?)`. */
  datatype SuccessCall = SuccessCall(role: Role, accessCode: Option<string>, instructorId: Option<nat>, instructorName: Option<string>)

  /** The length an access code must reach. */
  const CodeLength: nat := 6

  const CodeRejected: string := "El código de acceso ingresado no corresponde a ningún instructor."

  /** `accessCode?.length`: `None` when there is no code. */
  function CodeLengthOf(accessCode: Option<string>): Option<nat> {
    match accessCode
    case None => None
    case Some(c) => Some(|c|)
  }

  /** `role == STUDENT && (!accessCode?.length || accessCode?.length < 6)` */
  function InvalidCode(role: Option<Role>, accessCode: Option<string>): (invalid: bool)
    ensures invalid <==> role == Some(Student) && (accessCode.None? || |accessCode.value| < CodeLength)
  {
    var len := CodeLengthOf(accessCode);
    role == Some(Student) && (len.None? || len.value == 0 || len.value < CodeLength)
  }

  // ---------------------------------------------------------------------------
  // Upper-casing of the entered code
  // ---------------------------------------------------------------------------

  predicate IsLower(c: char) {
    'a' <= c <= 'z'
  }

  function UpperChar(c: char): (u: char)
    ensures !IsLower(u)
    ensures !IsLower(c) ==> u == c
  {
    if IsLower(c) then (c as int - 32) as char else c
  }

  /**
   * `toUpperCase` on the letters an alphanumeric pin input accepts: ASCII
   * lower-case letters become upper-case, every other character is kept.
   */
  function ToUpperCase(s: string): (u: string)
    ensures |u| == |s|
    ensures forall i :: 0 <= i < |s| ==> !IsLower(u[i])
    ensures forall i :: 0 <= i < |s| && !IsLower(s[i]) ==> u[i] == s[i]
    ensures forall i :: 0 <= i < |s| && IsLower(s[i]) ==> u[i] as int == s[i] as int - 32
  {
    if s == [] then [] else [UpperChar(s[0])] + ToUpperCase(s[1..])
  }

  /** Upper-casing twice is upper-casing once. */
  lemma UpperCaseIdempotent(s: string)
    ensures ToUpperCase(ToUpperCase(s)) == ToUpperCase(s)
  {
  }

  // ---------------------------------------------------------------------------
  // The step's state
  // ---------------------------------------------------------------------------

  class InitialRoleStep {
    var role: Option<Role>
    var accessCode: Option<string>
    var error: Option<string>
    var hasSubmitted: bool
    var loading: bool
    /** The codes passed to `InstructorService.checkCode`, in order. */
    var checkRequests: seq<string>
    /** The calls made to the `onSuccess` prop, in order. */
    var successCalls: seq<SuccessCall>

    /** The initial state, from `initialData`. */
    constructor (initialRole: Option<Role>, initialCode: Option<string>)
      ensures role == initialRole && accessCode == initialCode
      ensures error.None? && !hasSubmitted && !loading && checkRequests == [] && successCalls == []
    {
      role := initialRole;
      accessCode := initialCode;
      error := None;
      hasSubmitted := false;
      loading := false;
      checkRequests := [];
      successCalls := [];
    }

    /** The pin input's `onChange`: the entered code is stored upper-cased. */
    method OnCodeChange(v: string)
      modifies this`accessCode
      ensures accessCode == Some(ToUpperCase(v))
    {
      accessCode := Some(ToUpperCase(v));
    }

    /** The mount effect on the `tipo` search parameter. */
    method ApplyTipoParam(tipo: Option<string>)
      modifies this`role
      ensures tipo == Some("alumno") ==> role == Some(Student)
      ensures tipo == Some("instructor") ==> role == Some(Instructor)
      ensures tipo != Some("alumno") && tipo != Some("instructor") ==> role == old(role)
    {
      if tipo == Some("alumno") {
        role := Some(Student);
      }
      if tipo == Some("instructor") {
        role := Some(Instructor);
      }
    }

    /**
     * `onSubmit`, with `res` the awaited response of the code check (used only
     * when the check is requested). Every submit clears the error and marks the
     * form submitted; an instructor goes on at once; a student goes on only
     * after a code of full length passes the check.
     */
    method OnSubmit(res: CheckResponse)
      modifies this`error, this`hasSubmitted, this`loading, this`checkRequests, this`successCalls
      ensures hasSubmitted
      ensures old(role).None? ==> error.None? && loading == old(loading)
                                  && checkRequests == old(checkRequests) && successCalls == old(successCalls)
      ensures old(role) == Some(Instructor) ==>
                error.None? && loading == old(loading) && checkRequests == old(checkRequests)
                && successCalls == old(successCalls) + [SuccessCall(Instructor, None, None, None)]
      ensures old(role) == Some(Student) && InvalidCode(old(role), old(accessCode)) ==>
                error.None? && loading == old(loading)
                && checkRequests == old(checkRequests) && successCalls == old(successCalls)
      ensures old(role) == Some(Student) && !InvalidCode(old(role), old(accessCode)) ==>
                && checkRequests == old(checkRequests) + [old(accessCode).value]
                && (res.CheckError? || (res.Checked? && !res.valid) ==>
                      error == Some(CodeRejected) && !loading && successCalls == old(successCalls))
                && (res.Checked? && res.valid && res.user.Some? ==>
                      var u := res.user.value;
                      error.None? && loading
                      && successCalls == old(successCalls)
                         + [SuccessCall(Student, old(accessCode), Some(u.id), Some(u.firstName + " " + u.lastName))])
                && (res.Checked? && res.valid && res.user.None? ==>
                      error.None? && loading && successCalls == old(successCalls))
    {
      error := None;
      hasSubmitted := true;

      if role.None? {
        return;
      }
      if role == Some(Instructor) {
        successCalls := successCalls + [SuccessCall(Instructor, None, None, None)];
        return;
      }
      // STUDENT
      if accessCode.None? || |accessCode.value| == 0 || |accessCode.value| < CodeLength {
        return;
      }
      loading := true;
      checkRequests := checkRequests + [accessCode.value];
      if res.CheckError? || !res.valid {
        error := Some(CodeRejected);
        loading := false;
        return;
      }
      if res.user.None? {
        // `user.id` throws: the rest of the handler does not run.
        return;
      }
      var user := res.user.value;
      successCalls := successCalls + [SuccessCall(role.value, accessCode, Some(user.id), Some(user.firstName + " " + user.lastName))];
    }
  }
}
