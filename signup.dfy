/** The sign-up form: the five password criteria recomputed on every change
    of the password field, the confirm-password match, and the checks the
    submit handler makes before it sends the e-mail and password to the
    signup endpoint. */
module SignUp {
  import opened Wrappers

  // ---------------------------------------------------------------------
  // The password criteria
  // ---------------------------------------------------------------------

  /** A regular-expression character class: a range such as `[A-Z]`, or a
      list of characters such as `[!@#]`. */
  datatype CharClass = Range(lo: char, hi: char) | OneOf(chars: string)

  predicate InClass(c: char, cls: CharClass) {
    match cls
    case Range(lo, hi) => lo <= c <= hi
    case OneOf(chars) => c in chars
  }

  /** `/[...]/.test(s)` for a one-class pattern: some character of `s` is in
      the class. */
  function Test(cls: CharClass, s: string): (r: bool)
    ensures r <==> exists i :: 0 <= i < |s| && InClass(s[i], cls)
    decreases |s|
  {
    if s == [] then false
    else if InClass(s[0], cls) then true
    else
      var rest := Test(cls, s[1..]);
      assert rest ==> exists i :: 0 <= i < |s| && InClass(s[i], cls) by {
        if rest {
          var j :| 0 <= j < |s| - 1 && InClass(s[1..][j], cls);
          assert s[j + 1] == s[1..][j];
        }
      }
      assert (exists i :: 0 <= i < |s| && InClass(s[i], cls)) ==> rest by {
        if exists i :: 0 <= i < |s| && InClass(s[i], cls) {
          var j :| 0 <= j < |s| && InClass(s[j], cls);
          assert j != 0;
          assert s[1..][j - 1] == s[j];
        }
      }
      rest
  }

  const Uppercase := Range('A', 'Z')
  const Lowercase := Range('a', 'z')
  /** `\d` without the `u` flag is exactly `[0-9]`. */
  const Digit := Range('0', '9')
  /** The class of `/[!@#$%^&*(),.?":{}|<>]/`: twenty characters. */
  const SpecialCharacters: string := "!@#$%^&*(),.?\":{}|<>"
  const Special := OneOf(SpecialCharacters)

  const MinLength := 8

  /** The state the form keeps for the five criteria. */
  datatype PasswordValidation = PasswordValidation(
    length: bool, uppercase: bool, lowercase: bool, number: bool, special: bool)

  /** The criteria for a password value. */
  function Validate(value: string): (v: PasswordValidation)
    ensures v.length <==> |value| >= 8
    ensures v.uppercase <==> exists i :: 0 <= i < |value| && 'A' <= value[i] <= 'Z'
    ensures v.lowercase <==> exists i :: 0 <= i < |value| && 'a' <= value[i] <= 'z'
    ensures v.number <==> exists i :: 0 <= i < |value| && '0' <= value[i] <= '9'
    ensures v.special <==> exists i :: 0 <= i < |value| && value[i] in SpecialCharacters
  {
    PasswordValidation(
      |value| >= MinLength,
      Test(Uppercase, value),
      Test(Lowercase, value),
      Test(Digit, value),
      Test(Special, value))
  }

  /** `Object.values(passwordValidation)`, in declaration order. */
  function Values(v: PasswordValidation): seq<bool> {
    [v.length, v.uppercase, v.lowercase, v.number, v.special]
  }

  /** `xs.every(Boolean)`. */
  function Every(xs: seq<bool>): bool
    decreases |xs|
  {
    xs == [] || (xs[0] && Every(xs[1..]))
  }

  /** `isPasswordValid`. */
  function IsPasswordValid(v: PasswordValidation): bool {
    Every(Values(v))
  }

  /** `doPasswordsMatch`. */
  function DoPasswordsMatch(password: string, confirmPassword: string): bool {
    password == confirmPassword && confirmPassword != ""
  }

  /** `every(Boolean)` holds exactly when each element is true. */
  lemma {:induction false} EveryIff(xs: seq<bool>)
    ensures Every(xs) <==> forall i :: 0 <= i < |xs| ==> xs[i]
    decreases |xs|
  {
    if xs != [] {
      EveryIff(xs[1..]);
      assert forall i :: 1 <= i < |xs| ==> xs[i] == xs[1..][i - 1];
    }
  }

  /** Every value is true exactly when all five criteria hold. */
  lemma IsPasswordValidIff(v: PasswordValidation)
    ensures IsPasswordValid(v) <==> v.length && v.uppercase && v.lowercase && v.number && v.special
  {
    var xs := Values(v);
    EveryIff(xs);
    assert xs[0] == v.length && xs[1] == v.uppercase && xs[2] == v.lowercase;
    assert xs[3] == v.number && xs[4] == v.special;
  }

  /** A password is accepted exactly when it has at least eight characters,
      a capital, a small letter, a digit and one of the special characters. */
  lemma PasswordAcceptedIff(p: string)
    ensures IsPasswordValid(Validate(p)) <==>
              |p| >= 8
              && (exists i :: 0 <= i < |p| && 'A' <= p[i] <= 'Z')
              && (exists i :: 0 <= i < |p| && 'a' <= p[i] <= 'z')
              && (exists i :: 0 <= i < |p| && '0' <= p[i] <= '9')
              && (exists i :: 0 <= i < |p| && p[i] in SpecialCharacters)
  {
    IsPasswordValidIff(Validate(p));
  }

  /** The empty password meets no criterion: the form's initial criteria
      state is that of its initial (empty) password. */
  lemma EmptyPasswordMeetsNothing()
    ensures Validate("") == PasswordValidation(false, false, false, false, false)
  {
  }

  /** `_` is not a special character: `Abcdefg1_` fails only the special
      criterion. */
  lemma UnderscoreIsNotSpecial()
    ensures Validate("Abcdefg1_") == PasswordValidation(true, true, true, true, false)
  {
    var p := "Abcdefg1_";
    assert p[0] == 'A' && p[1] == 'b' && p[7] == '1';
    forall i | 0 <= i < |p| ensures p[i] !in SpecialCharacters {
      WordCharNotSpecial(p[i]);
    }
  }

  /** Letters, digits and `_` are not special characters. */
  lemma WordCharNotSpecial(c: char)
    requires 'A' <= c <= 'Z' || 'a' <= c <= 'z' || '0' <= c <= '9' || c == '_'
    ensures c !in SpecialCharacters
  {
  }

  /** `Abcdefg1!` meets all five criteria. */
  lemma StrongPasswordExample()
    ensures IsPasswordValid(Validate("Abcdefg1!"))
  {
    var q := "Abcdefg1!";
    assert q[8] in SpecialCharacters && q[0] == 'A' && q[1] == 'b' && q[7] == '1';
    IsPasswordValidIff(Validate(q));
  }

  // ---------------------------------------------------------------------
  // Submitting
  // ---------------------------------------------------------------------

  const PasswordRequirementsError := "Password does not meet requirements."
  const PasswordMismatchError := "Passwords do not match."

  /** The payload sent to the signup endpoint. */
  datatype UserData = UserData(email: string, password: string)

  /** What the submit handler decides before any network call: an error
      message, or the payload to send. */
  datatype SubmitDecision = Blocked(error: string) | SendSignup(userData: UserData)

  /** The checks of `handleSubmit`, in order: the criteria first, then the
      match. */
  function Submit(v: PasswordValidation, email: string, password: string,
                  confirmPassword: string): (r: SubmitDecision)
    ensures !IsPasswordValid(v) ==> r == Blocked(PasswordRequirementsError)
    ensures IsPasswordValid(v) && !DoPasswordsMatch(password, confirmPassword) ==>
              r == Blocked(PasswordMismatchError)
    ensures r.SendSignup? <==> IsPasswordValid(v) && DoPasswordsMatch(password, confirmPassword)
    ensures r.SendSignup? ==> r.userData == UserData(email, password)
  {
    if !IsPasswordValid(v) then Blocked(PasswordRequirementsError)
    else if !DoPasswordsMatch(password, confirmPassword) then Blocked(PasswordMismatchError)
    else SendSignup(UserData(email, password))
  }

  /** The submit button's `disabled` condition. */
  function SubmitDisabled(v: PasswordValidation, password: string, confirmPassword: string): bool {
    !IsPasswordValid(v) || !DoPasswordsMatch(password, confirmPassword)
  }

  /** The button is disabled exactly when submitting would be blocked. */
  lemma DisabledIffBlocked(v: PasswordValidation, email: string, password: string,
                           confirmPassword: string)
    ensures SubmitDisabled(v, password, confirmPassword)
        <==> Submit(v, email, password, confirmPassword).Blocked?
  {
  }

  /** A weak password is reported even when the confirmation also differs. */
  lemma RequirementsReportedFirst(email: string, password: string, confirmPassword: string)
    requires !IsPasswordValid(Validate(password)) && password != confirmPassword
    ensures Submit(Validate(password), email, password, confirmPassword)
         == Blocked(PasswordRequirementsError)
  {
  }

  /** With the criteria kept in step with the password, the submit handler
      hands back a payload exactly for a password meeting all five criteria
      and confirmed by an identical second entry. (The browser's own checks
      of the `required` and `type="email"` inputs run before the handler and
      are not part of this model.) */
  lemma SignupSentIff(email: string, password: string, confirmPassword: string)
    ensures Submit(Validate(password), email, password, confirmPassword).SendSignup?
        <==> |password| >= 8
             && (exists i :: 0 <= i < |password| && 'A' <= password[i] <= 'Z')
             && (exists i :: 0 <= i < |password| && 'a' <= password[i] <= 'z')
             && (exists i :: 0 <= i < |password| && '0' <= password[i] <= '9')
             && (exists i :: 0 <= i < |password| && password[i] in SpecialCharacters)
             && password == confirmPassword
  {
    PasswordAcceptedIff(password);
  }

  // ---------------------------------------------------------------------
  // The component state
  // ---------------------------------------------------------------------

  const EmailField := "email"
  const PasswordField := "password"
  const ConfirmPasswordField := "confirmPassword"

  /** The form's state: `formData`, `passwordValidation` and `error`. */
  class SignUpForm {
    var formData: map<string, string>
    var passwordValidation: PasswordValidation
    var error: string

    /** The three fields exist, and the criteria are those of the current
        password. */
    ghost predicate Valid()
      reads this
    {
      && EmailField in formData && PasswordField in formData && ConfirmPasswordField in formData
      && passwordValidation == Validate(formData[PasswordField])
    }

    constructor ()
      ensures Valid()
      ensures formData == map[EmailField := "", PasswordField := "", ConfirmPasswordField := ""]
      ensures passwordValidation == PasswordValidation(false, false, false, false, false)
      ensures error == ""
    {
      formData := map[EmailField := "", PasswordField := "", ConfirmPasswordField := ""];
      passwordValidation := PasswordValidation(false, false, false, false, false);
      error := "";
      EmptyPasswordMeetsNothing();
    }

    /** `handleInputChange`: the named field takes the new value and every
        other field keeps its own; the criteria are recomputed only for the
        password field. */
    method HandleInputChange(name: string, value: string)
      requires Valid()
      modifies this
      ensures Valid()
      ensures formData == old(formData)[name := value]
      ensures forall f :: f in old(formData) && f != name ==> f in formData && formData[f] == old(formData)[f]
      ensures passwordValidation == if name == PasswordField then Validate(value) else old(passwordValidation)
      ensures error == old(error)
    {
      formData := formData[name := value];
      if name == PasswordField {
        passwordValidation := Validate(value);
      }
    }

    /** `handleSubmit` up to the network call: clear the error, report a weak
        password, else a mismatch, else hand back the payload to send. */
    method HandleSubmit() returns (request: Option<UserData>)
      requires Valid()
      modifies this
      ensures Valid()
      ensures formData == old(formData) && passwordValidation == old(passwordValidation)
      ensures var d := Submit(passwordValidation, formData[EmailField], formData[PasswordField],
                              formData[ConfirmPasswordField]);
              (d.Blocked? ==> error == d.error && request == None)
              && (d.SendSignup? ==> error == "" && request == Some(d.userData))
    {
      error := "";
      if !IsPasswordValid(passwordValidation) {
        error := PasswordRequirementsError;
        return None;
      }
      if !DoPasswordsMatch(formData[PasswordField], formData[ConfirmPasswordField]) {
        error := PasswordMismatchError;
        return None;
      }
      request := Some(UserData(formData[EmailField], formData[PasswordField]));
    }
  }
}
